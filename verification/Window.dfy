/** One leaderboard window: its generations, live pointer, dirty flag and hot
    snapshots, with each Lua script as one atomic step. */
module Window {
  import opened Bytes
  import opened Decimal
  import opened Board

  const HOT_SIZE: nat := 2000
  const PUBLIC_CAP: nat := 1000

  datatype Generation = Generation(board: Users, revision: nat)

  datatype Snapshot = Snapshot(gen: Text, rev: nat, participants: nat, rows: seq<Row>, fence: nat)

  /** Missing Redis strings and hash fields read as the empty text. */
  datatype Window = Window(
    current: Text, previous: Text, gens: map<Text, Generation>,
    dirty: bool, pubSeq: nat, hot: Text, snaps: map<Text, Snapshot>, expiring: set<Text>)

  const EMPTY := Window([], [], map[], false, 0, [], map[], {})

  function At(w: Window, g: Text): Generation {
    if g in w.gens then w.gens[g] else Generation(map[], 0)
  }

  function LiveRev(w: Window): nat { At(w, w.current).revision }

  // ----- apply ------------------------------------------------------------

  datatype Reply = SkippedGeneration(current: Text) | Stale(rev: nat) | Duplicate(rev: nat) | Applied(revision: nat)

  function ApplyStep(w: Window, g: Text, u: Text, e: Entry): (Window, Reply) {
    if w.current != [] && Less(g, w.current) then (w, SkippedGeneration(w.current))
    else
      var gen := At(w, g);
      if u in gen.board && e.rev < gen.board[u].rev then (w, Stale(gen.board[u].rev))
      else if u in gen.board && e.rev == gen.board[u].rev && e.Gone? && gen.board[u].Gone? then
        (w, Duplicate(gen.board[u].rev))
      else if u in gen.board && e.rev == gen.board[u].rev && e.Live? && gen.board[u].Gone? then
        (w, Stale(gen.board[u].rev))
      else if u in gen.board && e.rev == gen.board[u].rev && e.Live? then
        (w, Duplicate(gen.board[u].rev))
      else
        var gen' := Generation(gen.board[u := e], gen.revision + 1);
        var future := w.current != [] && Less(w.current, g);
        (w.(gens := w.gens[g := gen'],
            current := if w.current == [] then g else w.current,
            dirty := if future then w.dirty else true),
         Applied(gen'.revision))
  }

  // ----- promote ----------------------------------------------------------

  datatype Promotion = StaleGeneration | AlreadyCurrent | EmptyGeneration | Promoted

  function PromoteStep(w: Window, g: Text): (Window, Promotion)
    requires ValidBoard(At(w, g).board)
  {
    if w.current != [] && Less(g, w.current) then (w, StaleGeneration)
    else if w.current != [] && g == w.current then (w, AlreadyCurrent)
    else if |Members(At(w, g).board)| == 0 then (w, EmptyGeneration)
    else (w.(previous := if w.current != [] then w.current else w.previous, current := g, dirty := true), Promoted)
  }

  // ----- capture ----------------------------------------------------------

  datatype Capture = Capture(gen: Text, rev: nat, participants: nat, rows: seq<Row>)

  /** The script re-reads the current generation for its label but reads the
      keys of generations `g` and `p` chosen by its caller. */
  function CaptureStep(w: Window, g: Text, p: Text): Option<Capture>
    requires ValidBoard(At(w, g).board)
  {
    if w.current == [] then None
    else
      var rows := BoardRows(At(w, g).board, At(w, p).board);
      Some(Capture(w.current, At(w, g).revision, |rows|, Take(rows, HOT_SIZE)))
  }

  /** What a capture of the live board looks like. */
  function LiveCapture(w: Window): Capture
    requires ValidBoard(At(w, w.current).board)
  {
    var rows := BoardRows(At(w, w.current).board, At(w, w.previous).board);
    Capture(w.current, LiveRev(w), |rows|, Take(rows, HOT_SIZE))
  }

  // ----- publish ----------------------------------------------------------

  datatype PublishStatus = Missing | Incomplete | StaleGen | StaleRev | StaleFence | Published

  function PublishStep(w: Window, id: Text, fence: nat, gen: Text, rev: nat, rowCount: nat): (Window, PublishStatus) {
    if id !in w.snaps then (w, Missing)
    else if |w.snaps[id].rows| != rowCount then (w, Incomplete)
    else if w.hot != [] && w.hot in w.snaps && Less(gen, w.snaps[w.hot].gen) then (w, StaleGen)
    else if w.hot != [] && w.hot in w.snaps && w.snaps[w.hot].gen == gen && rev < w.snaps[w.hot].rev then (w, StaleRev)
    else if w.hot != [] && w.hot in w.snaps && fence < w.snaps[w.hot].fence then (w, StaleFence)
    else (w.(hot := id), Published)
  }

  // ----- read -------------------------------------------------------------

  /** ZRANGE / LRANGE with Redis index rules: negative indices count from the end. */
  function RedisRange<T>(s: seq<T>, start: int, stop: int): seq<T> {
    var a := if start < 0 then start + |s| else start;
    var b := if stop < 0 then stop + |s| else stop;
    var lo := if a < 0 then 0 else a;
    var hi := if b >= |s| then |s| - 1 else b;
    if lo > hi || lo >= |s| then [] else s[lo..hi + 1]
  }

  /** The script's page bounds. */
  function Bounds(start: int, stop: int, cap: nat): (int, int) {
    var a := if start < 0 then 0 else start;
    var b := if stop < a then a - 1 else stop;
    if a > cap then (cap + 1, cap) else (a, if b > cap then cap else b)
  }

  function ScriptPage<T>(s: seq<T>, start: int, stop: int, cap: nat): seq<T> {
    var (a, b) := Bounds(start, stop, cap);
    RedisRange(s, a, b)
  }

  /** What was asked for: the elements at indices start..stop, none past the cap. */
  function Slice<T>(s: seq<T>, start: nat, stop: int, cap: nat): seq<T> {
    var n := if |s| <= cap then |s| else cap + 1;
    var hi := if stop + 1 < n then stop + 1 else n;
    if start >= hi then [] else s[start..hi]
  }

  /** The script serves the requested slice except that an empty request at the
      top of the board returns the whole of it. */
  lemma ScriptPageExact<T>(s: seq<T>, start: int, stop: int, cap: nat)
    ensures ScriptPage(s, start, stop, cap) == Slice(s, if start < 0 then 0 else start, stop, cap)
       <==> !(start <= 0 && stop < 0 && s != [])
  {
    if start <= 0 && stop < 0 {
      assert ScriptPage(s, start, stop, cap) == s;
      assert Slice(s, 0, stop, cap) == [];
    }
  }

  datatype Own = NoOwn | Own(rank: nat, tokens: nat)

  datatype View = LiveView | HotView

  datatype Page = Miss
                | Page(view: View, id: Text, gen: Text, rev: nat, participants: nat, own: Own, rows: seq<Row>)

  function OwnFields(b: Users, user: Text): Own {
    if user == [] || !IsLive(b, user) then NoOwn else Own(Rank(b, user), b[user].tokens)
  }

  function ChosenSnapshot(w: Window, snapId: Text): Text { if snapId == [] then w.hot else snapId }

  /** The snapshot claims to describe exactly the live board. */
  predicate Matched(w: Window, id: Text) {
    id != [] && id in w.snaps && w.snaps[id].gen == w.current && w.snaps[id].rev == LiveRev(w)
  }

  function ReadStep(w: Window, snapId: Text, start: int, stop: int, user: Text, cap: nat): Page
    requires ValidBoard(At(w, w.current).board)
  {
    var id := ChosenSnapshot(w, snapId);
    var b := At(w, w.current).board;
    if w.current == [] then Miss
    else if user != [] && !Matched(w, id) then
      Page(LiveView, id, w.current, LiveRev(w), |Members(b)|, OwnFields(b, user),
           ScriptPage(BoardRows(b, At(w, w.previous).board), start, stop, cap))
    else if id == [] || id !in w.snaps then Miss
    else
      var sn := w.snaps[id];
      Page(HotView, id, sn.gen, sn.rev, sn.participants, OwnFields(b, user),
           ScriptPage(sn.rows, start, stop, cap))
  }

  /** A page shows this snapshot: its label and count, and the requested slice of its rows. */
  predicate ShowsSnapshot(p: Page, id: Text, sn: Snapshot, start: int, stop: int, cap: nat) {
    p.Page? && p.view == HotView && p.id == id && p.gen == sn.gen && p.rev == sn.rev && p.participants == sn.participants
    && p.rows == Slice(sn.rows, if start < 0 then 0 else start, stop, cap)
  }

  /** A read without a viewer shows the snapshot it names, or the current one when it
      names none, and misses exactly when there is no generation or no such snapshot. */
  lemma PublicServes(w: Window, snapId: Text, start: int, stop: int, cap: nat)
    requires Consistent(w) && [] !in w.snaps && (start > 0 || stop >= 0)
    ensures var wanted := if snapId != [] then snapId else w.hot;
            var page := ReadStep(w, snapId, start, stop, [], cap);
      && (page == Miss <==> w.current == [] || wanted !in w.snaps)
      && (page != Miss ==> ShowsSnapshot(page, wanted, w.snaps[wanted], start, stop, cap) && page.own == NoOwn)
  {
    hide LiveOk, BoardRows;
    var wanted := if snapId != [] then snapId else w.hot;
    if wanted in w.snaps { ScriptPageExact(w.snaps[wanted].rows, start, stop, cap); }
  }

  /** A read with a viewer always answers once there is a generation, under the same id:
      from the snapshot exactly when that carries the live label, else from the board. */
  lemma ViewerServes(w: Window, snapId: Text, start: int, stop: int, user: Text, cap: nat)
    requires Consistent(w) && [] !in w.snaps && user != [] && (start > 0 || stop >= 0)
    ensures var wanted := if snapId != [] then snapId else w.hot;
            var b := At(w, w.current).board;
            var page := ReadStep(w, snapId, start, stop, user, cap);
      && (page == Miss <==> w.current == [])
      && (page != Miss ==>
            && page.id == wanted
            && page.own == (if user in b && b[user].Live? then Own(Rank(b, user), b[user].tokens) else NoOwn)
            && (page.view == HotView <==>
                  wanted in w.snaps && w.snaps[wanted].gen == w.current && w.snaps[wanted].rev == At(w, w.current).revision)
            && (page.view == HotView ==> ShowsSnapshot(page, wanted, w.snaps[wanted], start, stop, cap))
            && (page.view == LiveView ==>
                  && page.gen == w.current && page.rev == At(w, w.current).revision && page.participants == |Members(b)|
                  && page.rows == Slice(BoardRows(b, At(w, w.previous).board), if start < 0 then 0 else start, stop, cap)))
  {
    hide BoardRows, Rank, Members;
    var wanted := if snapId != [] then snapId else w.hot;
    if wanted in w.snaps { ScriptPageExact(w.snaps[wanted].rows, start, stop, cap); }
    ScriptPageExact(BoardRows(At(w, w.current).board, At(w, w.previous).board), start, stop, cap);
  }

  // ----- what every step keeps --------------------------------------------

  predicate LiveOk(current: Text, previous: Text, gens: map<Text, Generation>) {
    && (forall g :: g in gens ==> g != [] && ValidBoard(gens[g].board))
    && (current == [] ==> gens == map[] && previous == [])
    && (current != [] ==> current in gens)
    && (previous != [] ==> Less(previous, current))
  }

  predicate Consistent(w: Window) {
    LiveOk(w.current, w.previous, w.gens) && (w.current == [] ==> !w.dirty)
  }

  predicate AtMost(a: Text, b: Text) { a == b || Less(a, b) }

  /** How the live side of a window may change: the generation pointer only moves
      up, older generations are frozen, and a board changes only with its revision. */
  ghost predicate Advances(w: Window, w': Window) {
    && AtMost(w.current, w'.current)
    && (w'.current == w.current ==> w'.previous == w.previous)
    && (w'.current != w.current && w.current != [] ==> AtMost(w.current, w'.previous))
    && (forall g :: At(w, g).revision <= At(w', g).revision)
    && (forall g :: At(w, g).revision == At(w', g).revision ==> At(w, g) == At(w', g))
    && (forall g :: Less(g, w.current) ==> At(w', g) == At(w, g))
  }

  lemma AtMostTransitive(a: Text, b: Text, c: Text)
    requires AtMost(a, b) && AtMost(b, c)
    ensures AtMost(a, c)
  {
    if Less(a, b) && Less(b, c) { LessTransitive(a, b, c); }
  }

  lemma AdvancesTransitive(a: Window, b: Window, c: Window)
    requires Advances(a, b) && Advances(b, c)
    ensures Advances(a, c)
  {
    AtMostTransitive(a.current, b.current, c.current);
    if Less(a.current, b.current) { LessAsymmetric(a.current, b.current); }
    if b.current != c.current && a.current != [] {
      AtMostTransitive(a.current, b.current, c.previous);
      if Less(a.current, b.current) && Less(b.current, c.current) {
        LessTransitive(a.current, b.current, c.current);
        LessAsymmetric(a.current, c.current);
      }
      if a.current == c.current { LessIrreflexive(a.current); LessAsymmetric(b.current, c.current); }
    }
    if a.current == c.current && Less(b.current, c.current) { LessAsymmetric(b.current, c.current); }
    forall g | Less(g, a.current) ensures At(c, g) == At(a, g) {
      if Less(a.current, b.current) { LessTransitive(g, a.current, b.current); }
    }
    forall g ensures At(a, g).revision <= At(c, g).revision {
      assert At(a, g).revision <= At(b, g).revision <= At(c, g).revision;
    }
    forall g | At(a, g).revision == At(c, g).revision ensures At(a, g) == At(c, g) {
      assert At(a, g).revision <= At(b, g).revision <= At(c, g).revision;
    }
  }

  /** Apply merges the update into its generation unless that is already superseded,
      and counts it exactly when it changed the board. */
  lemma ApplyMerges(w: Window, g: Text, u: Text, e: Entry)
    ensures var (w', r) := ApplyStep(w, g, u, e);
      && (w.current != [] && Less(g, w.current) ==> w' == w)
      && (!(w.current != [] && Less(g, w.current)) ==> At(w', g).board == Merge(At(w, g).board, u, e))
      && (forall h :: h != g ==> At(w', h) == At(w, h))
      && (r.Applied? ==> At(w', g).revision == At(w, g).revision + 1 == r.revision)
      && (r.Applied? <==> At(w', g).board != At(w, g).board)
      && (!r.Applied? ==> w' == w)
  {
    var (w', r) := ApplyStep(w, g, u, e);
    assert u in At(w, g).board && r.Applied? ==> Beats(e, At(w, g).board[u]);
    assert r.Applied? ==> At(w', g).board[u] == e;
  }

  /** Apply keeps the window consistent, advances it, and marks live changes dirty. */
  lemma ApplyAdvances(w: Window, g: Text, u: Text, e: Entry)
    requires Consistent(w) && g != [] && ValidUpdate(u, e)
    ensures var (w', r) := ApplyStep(w, g, u, e);
      && Consistent(w') && Advances(w, w')
      && w'.hot == w.hot && w'.snaps == w.snaps && w'.pubSeq == w.pubSeq && w'.expiring == w.expiring
      && ((w'.current, LiveRev(w')) != (w.current, LiveRev(w)) ==> w'.dirty)
      && (w.dirty ==> w'.dirty)
  {
    var (w', r) := ApplyStep(w, g, u, e);
    LessIrreflexive(w.current);
    ApplyMerges(w, g, u, e);
    if r.Applied? && w.current != [] { LessTotal(g, w.current); }
  }

  lemma PromoteAdvances(w: Window, g: Text)
    requires Consistent(w)
    ensures var (w', r) := PromoteStep(w, g);
      && Consistent(w') && Advances(w, w')
      && w'.gens == w.gens
      && w'.hot == w.hot && w'.snaps == w.snaps && w'.pubSeq == w.pubSeq && w'.expiring == w.expiring
      && (r.Promoted? <==> w' != w && w'.current == g)
      && (r.Promoted? ==> Less(w.current, g) && w'.previous == w.current && w'.dirty)
      && (!r.Promoted? ==> w' == w)
      && (w.dirty ==> w'.dirty)
  {
    var (w', r) := PromoteStep(w, g);
    LessTotal(g, w.current);
    if r.Promoted? {
      assert g in w.gens;
      LessAsymmetric(w.current, g);
    }
  }

  /** What apply answers: skipped exactly below the current generation; applied exactly
      for a new user, a higher revision, or a removal of a live entry at its revision;
      else stale below the stored revision or at a tombstone's, and duplicate otherwise. */
  lemma ApplyReplies(w: Window, g: Text, u: Text, e: Entry)
    ensures var (b, r) := (At(w, g).board, ApplyStep(w, g, u, e).1);
      && (r == SkippedGeneration(w.current) <==> w.current != [] && Less(g, w.current))
      && (r.SkippedGeneration? ==> r.current == w.current)
      && (!r.SkippedGeneration? ==>
            && (r.Applied? <==> u !in b || e.rev > b[u].rev || (e.rev == b[u].rev && e.Gone? && b[u].Live?))
            && (r.Applied? ==> r.revision == At(w, g).revision + 1)
            && (r.Stale? <==> u in b && (e.rev < b[u].rev || (e.rev == b[u].rev && e.Live? && b[u].Gone?)) && r.rev == b[u].rev)
            && (r.Duplicate? <==> u in b && e.rev == b[u].rev && (e.Live? <==> b[u].Live?) && r.rev == b[u].rev))
  {
  }

  /** A promotion succeeds exactly for a generation that has a live user and is above the
      current one, if there is one; it is otherwise told apart by where it stands. */
  lemma PromotesExactly(w: Window, g: Text)
    requires Consistent(w)
    ensures var (b, r) := (At(w, g).board, PromoteStep(w, g).1);
      && (r.Promoted? <==> (w.current == [] || Less(w.current, g)) && exists u :: u in b && b[u].Live?)
      && (r.StaleGeneration? <==> w.current != [] && Less(g, w.current))
      && (r.AlreadyCurrent? <==> w.current != [] && g == w.current)
      && (r.EmptyGeneration? <==> (w.current == [] || Less(w.current, g)) && forall u :: u in b ==> b[u].Gone?)
  {
    LessTotal(g, w.current);
    LessIrreflexive(g);
    if Less(g, w.current) { LessAsymmetric(g, w.current); }
    var b := At(w, g).board;
    if u :| u in b && b[u].Live? {
      assert MemberOf(u, b[u]) in Members(b);
    } else {
      assert Members(b) == {};
    }
  }
}
