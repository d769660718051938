/** The capture race: when the generation resolved before the capture script is
    still right, and what a promotion in between does. */
module Race {
  import opened Bytes
  import opened Decimal
  import opened Encode
  import opened Board
  import opened Window
  import opened Publish
  import opened Publication
  import opened Loss

  /** The rows of a board with one live user. */
  lemma SingleRow(u: Text, e: Entry, prev: Users)
    requires ValidUpdate(u, e) && e.Live?
    ensures |Members(map[u := e])| == 1
    ensures BoardRows(map[u := e], prev) == [Row(u, e.tokens, PrevRank(prev, u))]
  {
    var b := map[u := e];
    assert (set v | v in b && b[v].Live?) == {u};
    OneMemberPerUser(b);
    StandingRank(b, 0);
  }

  lemma AloneInFront(u: Text, e: Entry)
    requires e.Live?
    ensures PrevRank(map[u := e], u) == 1
  {
    LessIrreflexive(u);
    assert AheadOf(map[u := e], u) == {};
  }

  // ----- the exact condition ------------------------------------------------

  ghost predicate CaptureTrue(current: Text, previous: Text, g: Text, p: Text) {
    forall w :: Consistent(w) && w.current == current && w.previous == previous ==>
      CaptureStep(w, g, p) == (if current == [] then None else Some(LiveCapture(w)))
  }

  function Sample(current: Text, previous: Text, gens: map<Text, Generation>): Window {
    EMPTY.(current := current, previous := previous, gens := gens)
  }

  lemma WrongGeneration(current: Text, previous: Text, g: Text, p: Text, u: Text, e: Entry)
    requires current != [] && g != current && (previous != [] ==> Less(previous, current))
    requires ValidUpdate(u, e) && e.Live?
    ensures !CaptureTrue(current, previous, g, p)
  {
    var w := Sample(current, previous, map[current := Generation(map[u := e], 1)]);
    assert Consistent(w) && At(w, g).revision == 0 && LiveRev(w) == 1;
  }

  lemma WrongPrevious(current: Text, previous: Text, p: Text, u: Text, e: Entry)
    requires current != [] && p != previous && (previous != [] ==> Less(previous, current))
    requires ValidUpdate(u, e) && e.Live?
    ensures !CaptureTrue(current, previous, current, p)
  {
    var full := Generation(map[u := e], 1);
    var w := Sample(current, previous, map[current := full, (if p != [] then p else previous) := full]);
    SampleBoards(current, previous, p, u, e);
    hide LiveOk, At, BoardRows, Sample;
    SingleRow(u, e, full.board);
    SingleRow(u, e, map[]);
    AloneInFront(u, e);
    assert BoardRows(full.board, full.board)[0] != BoardRows(full.board, map[])[0];
    assert CaptureStep(w, current, p) != Some(LiveCapture(w));
  }

  lemma SampleBoards(current: Text, previous: Text, p: Text, u: Text, e: Entry)
    requires current != [] && p != previous && (previous != [] ==> Less(previous, current))
    requires ValidUpdate(u, e) && e.Live?
    ensures var full := Generation(map[u := e], 1);
            var w := Sample(current, previous, map[current := full, (if p != [] then p else previous) := full]);
            && Consistent(w) && w.current == current && w.previous == previous && ValidBoard(full.board)
            && At(w, current) == full
            && At(w, p).board == (if p != [] then full.board else map[])
            && At(w, previous).board == (if p != [] then map[] else full.board)
  {
    LessIrreflexive(current);
  }

  /** The capture script answers with the live board, whatever the boards hold,
      exactly when the generations its caller resolved are the current ones. */
  lemma CaptureTrueExactly(current: Text, previous: Text, g: Text, p: Text, u: Text, e: Entry)
    requires current != [] && (previous != [] ==> Less(previous, current))
    requires ValidUpdate(u, e) && e.Live?
    ensures CaptureTrue(current, previous, g, p) <==> (g == current && p == previous)
  {
    if g != current {
      WrongGeneration(current, previous, g, p, u, e);
    } else if p != previous {
      WrongPrevious(current, previous, p, u, e);
    }
  }

  // ----- a run that mislabels -------------------------------------------------

  /** Two generations, one live user and one revision in each. */
  datatype Setting = Setting(g1: Text, a: Text, e: Entry, g2: Text, b: Text, f: Entry, id: Text) {
    ghost predicate Valid() {
      && g1 != [] && Less(g1, g2) && id != []
      && ValidUpdate(a, e) && ValidUpdate(b, f) && e.Live? && f.Live? && a != b
    }

    /** The newer generation is promoted after the publisher resolved the older one. */
    function Run(): (r: seq<Action>)
      ensures |r| == 11
    {
      [Update(g1, a, e), Update(g2, b, f), Begin(0, true), Step(0, []), Promote(g2), Step(0, []), Step(0, []),
       Step(0, []), Step(0, id), Step(0, []), Step(0, [])]
    }

    function First(): Window { EMPTY.(current := g1, gens := map[g1 := Generation(map[a := e], 1)], dirty := true) }

    function Before(): Window {
      First().(gens := map[g1 := Generation(map[a := e], 1), g2 := Generation(map[b := f], 1)])
    }

    function Raced(): Window { Before().(current := g2, previous := g1) }

    /** The older generation's row under the newer one's label. */
    function Wrong(): Capture
      requires e.Live?
    {
      Capture(g2, 1, 1, [Row(a, e.tokens, 1)])
    }

    function Holder(): Pub
      requires e.Live?
    {
      NewPub(true).(gen := g1, prev := g1, cap := Wrong())
    }

    function Written(): Window
      requires e.Live?
    {
      Raced().(pubSeq := 1, snaps := map[id := SnapshotOf(Holder().(fence := 1))])
    }

    /** The state after each prefix of the run. */
    function Stage(k: nat): Sys
      requires e.Live? && k <= 11
    {
      if k == 0 then INIT
      else if k == 1 then Sys(First(), map[], {})
      else if k == 2 then Sys(Before(), map[], {})
      else if k == 3 then Sys(Before(), map[0 := NewPub(true)], {})
      else if k == 4 then Sys(Before(), map[0 := NewPub(true).(pc := ReadPrev, gen := g1)], {})
      else if k == 5 then Sys(Raced(), map[0 := NewPub(true).(pc := ReadPrev, gen := g1)], {})
      else if k == 6 then Sys(Raced(), map[0 := NewPub(true).(pc := RunCapture, gen := g1, prev := g1)], {})
      else if k == 7 then Sys(Raced(), map[0 := Holder().(pc := GetHot)], {})
      else if k == 8 then Sys(Raced(), map[0 := Holder().(pc := TakeFence)], {})
      else if k == 9 then Sys(Raced().(pubSeq := 1), map[0 := Holder().(pc := WriteSnapshot, id := id, fence := 1)], {id})
      else if k == 10 then Sys(Written(), map[0 := Holder().(pc := RunPublish, id := id, fence := 1)], {id})
      else Sys(Written().(hot := id), map[0 := Holder().(pc := Done, id := id, fence := 1)], {id})
    }
  }

  lemma WindowsConsistent(x: Setting)
    requires x.Valid()
    ensures Consistent(x.First()) && Consistent(x.Before()) && Consistent(x.Raced())
  {
    assert x.g2 != [];
  }

  lemma StagesConsistent(x: Setting, k: nat)
    requires x.Valid() && k <= 11
    ensures Consistent(x.Stage(k).w)
  {
    WindowsConsistent(x);
    hide LiveOk, SnapshotOf;
    assert LiveOk([], [], map[]) by { WindowsConsistentEmpty(); }
  }

  lemma WindowsConsistentEmpty()
    ensures LiveOk([], [], map[])
  {
  }

  ghost predicate Follows(x: Setting, k: nat)
    requires x.Valid() && k < 11
  {
    Consistent(x.Stage(k).w) && Exec(x.Stage(k), x.Run()[k]) == x.Stage(k + 1)
  }

  lemma UpdatesFollow(x: Setting, k: nat)
    requires x.Valid() && k < 4
    ensures Follows(x, k)
  {
    StagesConsistent(x, k);
    LessAsymmetric(x.g1, x.g2);
  }

  lemma PromotionFollows(x: Setting, k: nat)
    requires x.Valid() && (k == 4 || k == 5)
    ensures Follows(x, k)
  {
    StagesConsistent(x, k);
    if k == 4 {
      SingleRow(x.b, x.f, map[]);
      LessAsymmetric(x.g1, x.g2);
      assert At(x.Before(), x.g2).board == map[x.b := x.f];
      assert PromoteStep(x.Before(), x.g2).0 == x.Raced();
    }
  }

  lemma CaptureFollows(x: Setting)
    requires x.Valid()
    ensures Follows(x, 6)
  {
    StagesConsistent(x, 6);
    LessIrreflexive(x.g1);
    var one := map[x.a := x.e];
    assert At(x.Raced(), x.g1) == Generation(one, 1);
    SingleRow(x.a, x.e, one);
    AloneInFront(x.a, x.e);
    assert CaptureStep(x.Raced(), x.g1, x.g1) == Some(x.Wrong());
  }

  lemma ChecksFollow(x: Setting, k: nat)
    requires x.Valid() && (k == 7 || k == 8)
    ensures Follows(x, k)
  {
    StagesConsistent(x, k);
    hide LiveOk, CaptureStep, PublishStep, SnapshotOf;
  }

  lemma WriteFollows(x: Setting)
    requires x.Valid()
    ensures Follows(x, 9)
  {
    StagesConsistent(x, 9);
    hide LiveOk, CaptureStep, PublishStep;
  }

  lemma PublishFollows(x: Setting)
    requires x.Valid()
    ensures Follows(x, 10)
  {
    StagesConsistent(x, 10);
    hide LiveOk, CaptureStep;
  }

  lemma {:induction false} StagesReached(x: Setting, k: nat)
    requires x.Valid() && k <= 11
    ensures After(x.Run()[..k]) == x.Stage(k)
  {
    hide Exec, Inv;
    if k > 0 {
      StagesReached(x, k - 1);
      if k <= 4 { UpdatesFollow(x, k - 1); }
      else if k <= 6 { PromotionFollows(x, k - 1); }
      else if k == 7 { CaptureFollows(x); }
      else if k <= 9 { ChecksFollow(x, k - 1); }
      else if k == 10 { WriteFollows(x); }
      else { PublishFollows(x); }
      assert x.Run()[..k][..k - 1] == x.Run()[..k - 1];
    }
  }

  ghost predicate Mislabelled(x: Setting, w: Window)
    requires x.Valid()
  {
    && Consistent(w) && UpToDate(w)
    && w.snaps[w.hot].rows == [Row(x.a, x.e.tokens, 1)]
    && LiveCapture(w).rows == [Row(x.b, x.f.tokens, 0)]
  }

  lemma LastStageMislabels(x: Setting)
    requires x.Valid()
    ensures Mislabelled(x, x.Stage(11).w)
  {
    var w := x.Stage(11).w;
    StagesConsistent(x, 11);
    LessAsymmetric(x.g1, x.g2);
    assert At(w, x.g2) == Generation(map[x.b := x.f], 1);
    assert At(w, x.g1).board == map[x.a := x.e];
    SingleRow(x.b, x.f, map[x.a := x.e]);
  }

  /** What a read of the whole page answers, with a viewer or without one. */
  ghost predicate ServesOld(x: Setting, w: Window, user: Text, stop: nat, cap: nat)
    requires Consistent(w) && ValidBoard(At(w, w.current).board) && x.e.Live?
  {
    var page := ReadStep(w, [], 0, stop, user, cap);
    page.Page? && page.view == HotView && page.gen == w.current && page.rev == LiveRev(w)
    && page.rows == [Row(x.a, x.e.tokens, 1)]
  }

  lemma MislabelledServesOld(x: Setting, w: Window, user: Text, stop: nat, cap: nat)
    requires x.Valid() && Mislabelled(x, w) && [] !in w.snaps
    ensures ValidBoard(At(w, w.current).board) && ServesOld(x, w, user, stop, cap)
  {
    hide BoardRows, ValidBoard;
    EmptyBoardValid();
  }

  /** A promotion between resolving the generation and running the script: the older
      generation's row is published under the newer one's label, and that label
      matches the live board although the rows do not, so reads serve the old row. */
  lemma PromotionRaceMislabels(x: Setting, user: Text, stop: nat, cap: nat)
    requires x.Valid()
    ensures Mislabelled(x, After(x.Run()).w)
    ensures ValidBoard(At(After(x.Run()).w, After(x.Run()).w.current).board)
    ensures ServesOld(x, After(x.Run()).w, user, stop, cap)
  {
    hide Mislabelled, ServesOld, Exec;
    assert x.Run()[..11] == x.Run();
    StagesReached(x, 11);
    LastStageMislabels(x);
    IdsAreNotEmpty(After(x.Run()));
    MislabelledServesOld(x, After(x.Run()).w, user, stop, cap);
  }

  lemma IdsAreNotEmpty(s: Sys)
    requires Inv(s)
    ensures [] !in s.w.snaps
  {
    hide PubOk, Apart, LiveOk;
  }

  // ----- a run that loses an update ---------------------------------------------

  /** Two changes of the older generation and one of the newer, which is promoted
      after the publisher resolved the older one. */
  function Start(x: Setting): (r: seq<Action>)
    ensures |r| == 7
  {
    [Update(x.g1, x.a, x.e), Update(x.g1, x.b, x.f), Update(x.g2, x.b, x.f), Begin(0, true), Step(0, []),
     Promote(x.g2), Step(0, [])]
  }

  function Twice(x: Setting): Generation { Generation(map[x.a := x.e, x.b := x.f], 2) }

  function Two(x: Setting): Window {
    x.First().(gens := map[x.g1 := Twice(x), x.g2 := Generation(map[x.b := x.f], 1)])
  }

  function StartStage(x: Setting, k: nat): Sys
    requires k <= 7
  {
    if k == 0 then INIT
    else if k == 1 then Sys(x.First(), map[], {})
    else if k == 2 then Sys(x.First().(gens := map[x.g1 := Twice(x)]), map[], {})
    else if k == 3 then Sys(Two(x), map[], {})
    else if k == 4 then Sys(Two(x), map[0 := NewPub(true)], {})
    else if k == 5 then Sys(Two(x), map[0 := NewPub(true).(pc := ReadPrev, gen := x.g1)], {})
    else if k == 6 then
      Sys(Two(x).(current := x.g2, previous := x.g1), map[0 := NewPub(true).(pc := ReadPrev, gen := x.g1)], {})
    else Sys(Two(x).(current := x.g2, previous := x.g1), map[0 := NewPub(true).(pc := RunCapture, gen := x.g1, prev := x.g1)], {})
  }

  lemma StartConsistent(x: Setting, k: nat)
    requires x.Valid() && k <= 7
    ensures Consistent(StartStage(x, k).w)
  {
    assert x.g2 != [];
    WindowsConsistentEmpty();
  }

  lemma StartUpdates(x: Setting, k: nat)
    requires x.Valid() && k < 5
    ensures Consistent(StartStage(x, k).w) && Exec(StartStage(x, k), Start(x)[k]) == StartStage(x, k + 1)
  {
    StartConsistent(x, k);
    hide LiveOk;
    LessAsymmetric(x.g1, x.g2);
    LessIrreflexive(x.g1);
    assert map[x.a := x.e][x.b := x.f] == map[x.a := x.e, x.b := x.f];
  }

  lemma StartPromotes(x: Setting, k: nat)
    requires x.Valid() && 5 <= k < 7
    ensures Consistent(StartStage(x, k).w) && Exec(StartStage(x, k), Start(x)[k]) == StartStage(x, k + 1)
  {
    StartConsistent(x, k);
    hide LiveOk;
    if k == 5 {
      SingleRow(x.b, x.f, map[]);
      LessAsymmetric(x.g1, x.g2);
      assert At(Two(x), x.g2).board == map[x.b := x.f];
      assert PromoteStep(Two(x), x.g2).0 == Two(x).(current := x.g2, previous := x.g1);
    }
  }

  lemma {:induction false} StartReached(x: Setting, k: nat)
    requires x.Valid() && k <= 7
    ensures After(Start(x)[..k]) == StartStage(x, k) && Level(Start(x)[..k])
  {
    hide Exec, Inv;
    if k > 0 {
      StartReached(x, k - 1);
      if k <= 5 { StartUpdates(x, k - 1); } else { StartPromotes(x, k - 1); }
      assert Start(x)[..k][..k - 1] == Start(x)[..k - 1];
    }
  }

  /** The older generation is at revision 2 and the newer one at revision 1: the run
      goes on, level but for that one capture, to a hot label (g2, 2) over a live
      label (g2, 1), with the flag clear and nobody owing a publication. */
  lemma LosingRun(x: Setting, id: Text) returns (more: seq<Action>)
    requires x.Valid()
    ensures var u := After(Start(x) + [Step(0, id)] + more);
            && u.w.current == x.g2 && LiveRev(u.w) == 1 && Lost(u, 2) && !NothingLost(u)
  {
    hide Exec, Inv, Lost, NothingLost;
    assert Start(x)[..7] == Start(x);
    StartReached(x, 7);
    StartAbove(x);
    more := AboveLoses(Start(x), 0, id);
    LostIsLost(After(Start(x) + [Step(0, id)] + more), 2);
  }

  lemma StartAbove(x: Setting)
    requires x.Valid()
    ensures var s := StartStage(x, 7);
            About(s, 0) && At(s.w, s.pubs[0].gen).revision == 2 && LiveRev(s.w) == 1 && s.w.current == x.g2
  {
    LessIrreflexive(x.g1);
  }

  /** Such settings exist. */
  lemma RaceIsPossible() returns (x: Setting)
    ensures x.Valid()
  {
    DigitsFit(1, REGISTERED_AT_WIDTH);
    x := Setting([49], [97], Live(1, 5, 1), [50], [98], Live(1, 5, 1), [120]);
  }
}
