/** Hot reads refine live reads, on every run whose captures are steady; what goes
    wrong on the others. */
module Reads {
  import opened Bytes
  import opened Decimal
  import opened Board
  import opened Window
  import opened Publish
  import opened Publication

  // ----- previous generations are frozen -----------------------------------

  ghost function PreviousBoard(acts: seq<Action>): Users {
    At(After(acts).w, After(acts).w.previous).board
  }

  /** While a generation stays current its previous ranks do not change. */
  lemma PreviousRanksFixed(acts: seq<Action>, j: nat, u: Text)
    requires j <= |acts| && After(acts[..j]).w.current == After(acts).w.current
    ensures PreviousBoard(acts[..j]) == PreviousBoard(acts)
    ensures PrevRank(PreviousBoard(acts[..j]), u) == PrevRank(PreviousBoard(acts), u)
  {
    RunAdvances(acts, j);
    var w, w' := After(acts[..j]).w, After(acts).w;
    assert Consistent(w) && Consistent(w');
    if w.previous != [] {
      assert At(w', w.previous) == At(w, w.previous);
    } else {
      assert [] !in w.gens && [] !in w'.gens;
    }
  }

  /** Promotion strictly raises the current generation and keeps the previous one below. */
  lemma PromotionRaises(acts: seq<Action>, g: Text)
    ensures var w, w' := After(acts).w, After(acts + [Promote(g)]).w;
      && (w' != w ==> Less(w.current, w'.current) && w'.current == g && w'.previous == w.current)
      && (w'.previous != [] ==> Less(w'.previous, w'.current))
  {
    AfterSnoc(acts, Promote(g));
    PromoteAdvances(After(acts).w, g);
    assert Consistent(After(acts + [Promote(g)]).w);
  }

  // ----- every snapshot was a live board ------------------------------------

  /** The state after some prefix of the run showed exactly this capture. */
  ghost predicate WasLive(acts: seq<Action>, c: Capture) {
    exists j :: LiveAt(acts, j, c)
  }

  ghost predicate LiveAt(acts: seq<Action>, j: int, c: Capture) {
    0 <= j <= |acts| && After(acts[..j]).w.current != [] && LiveCapture(After(acts[..j]).w) == c
  }

  function CaptureOf(sn: Snapshot): Capture { Capture(sn.gen, sn.rev, sn.participants, sn.rows) }

  lemma WasLiveGrows(acts: seq<Action>, a: Action, c: Capture)
    requires WasLive(acts, c)
    ensures WasLive(acts + [a], c)
  {
    hide LiveCapture, Inv;
    var j :| LiveAt(acts, j, c);
    assert (acts + [a])[..j] == acts[..j];
    assert LiveAt(acts + [a], j, c);
  }

  lemma IsLiveNow(acts: seq<Action>)
    requires After(acts).w.current != []
    ensures WasLive(acts, LiveCapture(After(acts).w))
  {
    assert acts[..|acts|] == acts;
    assert LiveAt(acts, |acts|, LiveCapture(After(acts).w));
  }

  /** Every snapshot and every capture still held lies in `past`. */
  ghost predicate Sourced(s: Sys, past: iset<Capture>) {
    && (forall x :: x in s.w.snaps ==> CaptureOf(s.w.snaps[x]) in past)
    && (forall p :: p in s.pubs && Captured(s.pubs[p]) ==> s.pubs[p].cap in past)
  }

  ghost function Past(acts: seq<Action>): iset<Capture> { iset c | WasLive(acts, c) }

  /** What the capture script of this action returns, if it is one, lies in `past`. */
  ghost predicate TakenIn(s: Sys, a: Action, past: iset<Capture>)
    requires Consistent(s.w)
  {
    a.Step? && a.p in s.pubs && s.pubs[a.p].pc == RunCapture ==>
      var c := CaptureStep(s.w, s.pubs[a.p].gen, s.pubs[a.p].prev);
      c.Some? ==> c.value in past
  }

  lemma CapturedSource(w: Window, q: Pub, issued: set<Text>, freshId: Text)
    requires StoreOk(w, issued) && PubOk(w, issued, q)
    ensures var (w', q', issued') := PubStep(w, q, issued, freshId);
      && (Captured(q') && q.pc != RunCapture ==> q'.cap == q.cap && Captured(q))
      && (Captured(q') && q.pc == RunCapture ==> CaptureStep(w, q.gen, q.prev) == Some(q'.cap))
      && (w'.snaps == w.snaps || (q.pc == WriteSnapshot && w'.snaps == w.snaps[q.id := SnapshotOf(q)]))
  {
    hide LiveOk, PublishStep, CaptureStep, SnapshotOf, Less;
    if q.pc == RunPublish {
      PublishShape(w, q.id, q.fence, q.cap.gen, q.cap.rev, |q.cap.rows|);
    }
  }

  lemma SnapshotCaptures(q: Pub)
    ensures CaptureOf(SnapshotOf(q)) == q.cap
  {
  }

  /** One publisher moves and stores at most its own capture. */
  lemma SourcedMoved(s: Sys, p: nat, w': Window, q': Pub, issued': set<Text>, id: Text, sn: Snapshot, past: iset<Capture>)
    requires Sourced(s, past) && (Captured(q') ==> q'.cap in past)
    requires w'.snaps == s.w.snaps || (w'.snaps == s.w.snaps[id := sn] && CaptureOf(sn) in past)
    ensures Sourced(Sys(w', s.pubs[p := q'], issued'), past)
  {
    hide Captured, CaptureOf;
  }

  lemma StepSourced(s: Sys, p: nat, freshId: Text, past: iset<Capture>)
    requires p in s.pubs && StoreOk(s.w, s.issued) && PubOk(s.w, s.issued, s.pubs[p])
    requires Sourced(s, past) && TakenIn(s, Step(p, freshId), past)
    ensures Sourced(Exec(s, Step(p, freshId)), past)
  {
    hide PubStep, CaptureStep, SnapshotOf, CaptureOf, LiveOk, PubOk;
    var q := s.pubs[p];
    var (w', q', issued') := PubStep(s.w, q, s.issued, freshId);
    CapturedSource(s.w, q, s.issued, freshId);
    SnapshotCaptures(q);
    assert q.pc == WriteSnapshot ==> Captured(q);
    assert Captured(q) ==> q.cap in past;
    assert Captured(q') ==> q'.cap in past;
    assert Exec(s, Step(p, freshId)) == Sys(w', s.pubs[p := q'], issued');
    hide Sourced, TakenIn, Exec, StoreOk, Captured;
    SourcedMoved(s, p, w', q', issued', q.id, SnapshotOf(q), past);
  }

  lemma PubStepSourced(s: Sys, p: nat, freshId: Text, past: iset<Capture>)
    requires Inv(s) && Sourced(s, past) && TakenIn(s, Step(p, freshId), past) && p in s.pubs
    ensures Sourced(Exec(s, Step(p, freshId)), past)
  {
    hide PubStep, LiveOk, Exec, Sourced, PubOk, Apart, TakenIn;
    assert PubOk(s.w, s.issued, s.pubs[p]);
    StepSourced(s, p, freshId, past);
  }

  lemma ExecSourced(s: Sys, a: Action, past: iset<Capture>)
    requires Inv(s) && Sourced(s, past) && TakenIn(s, a, past)
    ensures Sourced(Exec(s, a), past)
  {
    hide PubStep, ApplyStep, PromoteStep, LiveOk, TakenIn;
    match a
    case Update(g, u, e) => if g != [] && ValidUpdate(u, e) { ApplyAdvances(s.w, g, u, e); }
    case Promote(g) => PromoteAdvances(s.w, g);
    case Begin(p, direct) =>
    case Step(p, freshId) => if p in s.pubs { PubStepSourced(s, p, freshId, past); }
  }

  lemma SteadyTakesLive(s: Sys, a: Action, past: iset<Capture>)
    requires Inv(s) && SteadyAction(s, a)
    requires s.w.current != [] ==> LiveCapture(s.w) in past
    ensures TakenIn(s, a, past)
  {
    hide LiveOk, CaptureStep, LiveCapture, Apart;
    if a.Step? && a.p in s.pubs && s.pubs[a.p].pc == RunCapture {
      SteadyCapture(s.w, s.pubs[a.p], s.issued);
    }
  }

  /** In a steady run every snapshot ever written, and every capture a publisher
      still holds, is the live board of some earlier moment. */
  lemma {:induction false} SnapshotsWereLive(acts: seq<Action>)
    requires Steady(acts)
    ensures Sourced(After(acts), Past(acts))
    decreases |acts|
  {
    if acts != [] {
      var front, a := acts[..|acts| - 1], acts[|acts| - 1];
      assert acts == front + [a];
      SnapshotsWereLive(front);
      if After(front).w.current != [] { IsLiveNow(front); }
      SteadyTakesLive(After(front), a, Past(front));
      ExecSourced(After(front), a, Past(front));
      AfterSnoc(front, a);
      PastGrows(front, a, Exec(After(front), a));
    }
  }

  lemma PastGrows(front: seq<Action>, a: Action, s: Sys)
    requires Sourced(s, Past(front))
    ensures Sourced(s, Past(front + [a]))
  {
    forall c | c in Past(front) ensures c in Past(front + [a]) { WasLiveGrows(front, a, c); }
  }

  // ----- the label determines the board --------------------------------------

  /** One label, one board: a capture of an earlier moment that carries the live
      label is the live capture. */
  lemma LabelDetermines(acts: seq<Action>, c: Capture)
    requires WasLive(acts, c) && c.gen == After(acts).w.current && c.rev == LiveRev(After(acts).w)
    ensures c == LiveCapture(After(acts).w)
  {
    var j :| LiveAt(acts, j, c);
    RunAdvances(acts, j);
    PreviousRanksFixed(acts, j, []);
    assert At(After(acts[..j]).w, c.gen) == At(After(acts).w, c.gen);
  }

  lemma PageWithinCapture<T>(s: seq<T>, start: int, stop: int, cap: nat)
    requires cap < HOT_SIZE && (start > 0 || stop >= 0)
    ensures ScriptPage(Take(s, HOT_SIZE), start, stop, cap) == ScriptPage(s, start, stop, cap)
  {
    ScriptPageExact(s, start, stop, cap);
    ScriptPageExact(Take(s, HOT_SIZE), start, stop, cap);
  }

  /** A read with a viewer answers exactly what a live read of this moment answers:
      page, participant count, previous ranks and own fields describe one state. */
  lemma ViewerReadsLive(acts: seq<Action>, snapId: Text, start: int, stop: int, user: Text, cap: nat)
    requires Steady(acts) && user != [] && After(acts).w.current != []
    requires cap < HOT_SIZE && (start > 0 || stop >= 0)
    ensures var w := After(acts).w;
            var b := At(w, w.current).board;
            var page := ReadStep(w, snapId, start, stop, user, cap);
      && page.Page? && page.gen == w.current && page.rev == LiveRev(w)
      && page.participants == |Members(b)|
      && page.own == OwnFields(b, user)
      && page.rows == ScriptPage(BoardRows(b, At(w, w.previous).board), start, stop, cap)
  {
    var w := After(acts).w;
    var id := ChosenSnapshot(w, snapId);
    if Matched(w, id) {
      SnapshotsWereLive(acts);
      LabelDetermines(acts, CaptureOf(w.snaps[id]));
      PageWithinCapture(BoardRows(At(w, w.current).board, At(w, w.previous).board), start, stop, cap);
    }
  }

  /** A public read that is not a miss serves the requested slice of the board of
      some moment, under that moment's label and participant count. */
  lemma PublicReadWasLive(acts: seq<Action>, snapId: Text, start: int, stop: int, cap: nat)
    requires Steady(acts) && cap < HOT_SIZE && (start > 0 || stop >= 0)
    requires ReadStep(After(acts).w, snapId, start, stop, [], cap).Page?
    ensures exists j :: 0 <= j <= |acts| && ServedAt(acts, j, ReadStep(After(acts).w, snapId, start, stop, [], cap), start, stop, cap)
  {
    var w := After(acts).w;
    var id := ChosenSnapshot(w, snapId);
    SnapshotsWereLive(acts);
    var c := CaptureOf(w.snaps[id]);
    var j :| LiveAt(acts, j, c);
    var v := After(acts[..j]).w;
    PageWithinCapture(BoardRows(At(v, v.current).board, At(v, v.previous).board), start, stop, cap);
    assert ServedAt(acts, j, ReadStep(w, snapId, start, stop, [], cap), start, stop, cap);
  }

  ghost predicate ServedAt(acts: seq<Action>, j: int, page: Page, start: int, stop: int, cap: nat)
    requires page.Page?
  {
    0 <= j <= |acts| &&
    var v := After(acts[..j]).w;
    var b := At(v, v.current).board;
    && v.current != [] && page.gen == v.current && page.rev == LiveRev(v)
    && page.participants == |Members(b)| && page.own == NoOwn
    && page.rows == ScriptPage(BoardRows(b, At(v, v.previous).board), start, stop, cap)
  }
}
