/** Why level captures are needed: a capture above the live revision always has a
    continuation in which an update is lost, whatever the other publishers do. */
module Loss {
  import opened Bytes
  import opened Board
  import opened Window
  import opened Publish
  import opened Publication

  lemma InvConsistent(s: Sys)
    requires Inv(s)
    ensures Consistent(s.w)
  {
    hide PubOk, Apart, LiveOk;
  }

  // ----- runs from a state ------------------------------------------------------------

  ghost function RunFrom(s: Sys, more: seq<Action>): (t: Sys)
    requires Inv(s)
    ensures Inv(t)
    decreases |more|
  {
    if more == [] then s
    else
      ExecKeepsInv(s, more[0]);
      RunFrom(Exec(s, more[0]), more[1..])
  }

  ghost predicate LevelFrom(s: Sys, more: seq<Action>)
    requires Inv(s)
    decreases |more|
  {
    more == [] ||
    (LevelAction(s, more[0]) && (ExecKeepsInv(s, more[0]); LevelFrom(Exec(s, more[0]), more[1..])))
  }

  lemma {:induction false} FromConcat(s: Sys, x: seq<Action>, y: seq<Action>)
    requires Inv(s)
    ensures RunFrom(s, x + y) == RunFrom(RunFrom(s, x), y)
    ensures LevelFrom(s, x + y) <==> LevelFrom(s, x) && LevelFrom(RunFrom(s, x), y)
    decreases |x|
  {
    hide Inv, Exec, LevelAction;
    if x == [] {
      assert x + y == y;
    } else {
      assert (x + y)[1..] == x[1..] + y;
      InvConsistent(s);
      ExecKeepsInv(s, x[0]);
      FromConcat(Exec(s, x[0]), x[1..], y);
    }
  }

  lemma FromNone(s: Sys)
    requires Inv(s)
    ensures RunFrom(s, []) == s && LevelFrom(s, [])
  {
    hide Inv;
  }

  lemma FromOne(s: Sys, a: Action)
    requires Inv(s)
    ensures RunFrom(s, [a]) == Exec(s, a) && (LevelFrom(s, [a]) <==> LevelAction(s, a))
  {
    hide PubOk, Apart, LiveOk, Exec, LevelAction;
    ExecKeepsInv(s, a);
    assert [a][1..] == [];
  }

  lemma {:induction false} FromAfter(acts: seq<Action>, more: seq<Action>)
    ensures After(acts + more) == RunFrom(After(acts), more)
    ensures Level(acts) && LevelFrom(After(acts), more) ==> Level(acts + more)
    decreases |more|
  {
    hide Inv, Exec, LevelAction;
    if more == [] {
      assert acts + more == acts;
    } else {
      var one := acts + [more[0]];
      assert acts + more == one + more[1..] && one[..|acts|] == acts;
      AfterSnoc(acts, more[0]);
      FromAfter(one, more[1..]);
    }
  }

  // ----- fences ----------------------------------------------------------------------

  ghost predicate SnapsFenced(w: Window) { forall x :: x in w.snaps ==> w.snaps[x].fence <= w.pubSeq }

  /** No stored or waiting fence is above the counter. */
  ghost predicate Fenced(s: Sys) {
    && SnapsFenced(s.w)
    && (forall p :: p in s.pubs && Pending(s.pubs[p]) ==> s.pubs[p].fence <= s.w.pubSeq)
  }

  lemma PubStepFenced(w: Window, q: Pub, issued: set<Text>, freshId: Text)
    requires Consistent(w) && SnapsFenced(w) && (Pending(q) ==> q.fence <= w.pubSeq)
    ensures var (w', q', issued') := PubStep(w, q, issued, freshId);
            SnapsFenced(w') && w.pubSeq <= w'.pubSeq && (Pending(q') ==> q'.fence <= w'.pubSeq)
  {
    hide CaptureStep, PublishStep, LiveOk, Less;
    if q.pc == RunPublish { PublishShape(w, q.id, q.fence, q.cap.gen, q.cap.rev, |q.cap.rows|); }
  }

  lemma ExecFenced(s: Sys, a: Action)
    requires Inv(s) && Fenced(s)
    ensures Fenced(Exec(s, a))
  {
    hide PubStep, PubOk, Apart, SnapsFenced, ApplyStep, PromoteStep;
    match a
    case Update(g, u, e) =>
      if g != [] && ValidUpdate(u, e) { ApplyAdvances(s.w, g, u, e); SameSnapsFenced(s.w, ApplyStep(s.w, g, u, e).0); }
    case Promote(g) =>
      PromoteAdvances(s.w, g);
      SameSnapsFenced(s.w, PromoteStep(s.w, g).0);
    case Begin(p, direct) =>
    case Step(p, freshId) => if p in s.pubs { PubStepFenced(s.w, s.pubs[p], s.issued, freshId); }
  }

  lemma SameSnapsFenced(w: Window, w': Window)
    requires SnapsFenced(w) && w'.snaps == w.snaps && w'.pubSeq == w.pubSeq
    ensures SnapsFenced(w')
  {
  }

  lemma {:induction false} RunFenced(acts: seq<Action>)
    ensures Fenced(After(acts))
  {
    hide Inv, Exec;
    if acts == [] {
      assert Fenced(INIT);
    } else {
      RunFenced(acts[..|acts| - 1]);
      ExecFenced(After(acts[..|acts| - 1]), acts[|acts| - 1]);
    }
  }

  // ----- one publisher on its way ------------------------------------------------------

  /** How many calls a publisher has before it, at most. */
  function Ahead(pc: Pc): nat {
    match pc
    case ReadDirty => 15 case ReadHot => 14 case ClearDirty => 13 case ReadGen => 12 case ReadPrev => 11
    case RunCapture => 10 case GetHot => 9 case CheckRev => 8 case CheckGen => 7 case TakeFence => 6
    case WriteSnapshot => 5 case RunPublish => 4 case ExpireRows => 3 case ExpireMeta => 2 case Redirty => 1
    case Done => 0
  }

  lemma StepGoesOn(w: Window, q: Pub, issued: set<Text>, freshId: Text)
    requires Consistent(w) && q.pc != Done && freshId != [] && freshId !in issued
    ensures Ahead(PubStep(w, q, issued, freshId).1.pc) < Ahead(q.pc)
  {
    hide CaptureStep, PublishStep, LiveOk, Less, SnapshotOf;
  }

  predicate SameLive(w: Window, w': Window) { w'.current == w.current && w'.gens == w.gens }

  lemma OwesSame(w: Window, w': Window, q: Pub)
    requires SameLive(w, w')
    ensures Owes(w', q) <==> Owes(w, q)
  {
  }

  /** Every fact about runs that a level continuation keeps. */
  ghost predicate Sound(s: Sys) { Inv(s) && Fenced(s) && Labels(s) && NothingLost(s) && s.w.current != [] }

  lemma SoundInv(s: Sys)
    requires Sound(s)
    ensures Inv(s) && Fenced(s) && Consistent(s.w)
  {
    hide Inv, Fenced, Labels, NothingLost;
    InvConsistent(s);
  }

  /** One call of one publisher. */
  lemma StepMoves(s: Sys, p: nat, freshId: Text)
    requires Inv(s) && Fenced(s) && p in s.pubs
    ensures var t := Exec(s, Step(p, freshId));
            && Inv(t) && Fenced(t) && SameLive(s.w, t.w)
            && p in t.pubs && t.pubs == s.pubs[p := t.pubs[p]]
            && (t.w, t.pubs[p], t.issued) == PubStep(s.w, s.pubs[p], s.issued, freshId)
  {
    hide PubStep, LiveOk, PubOk, Apart;
    ExecKeepsInv(s, Step(p, freshId));
    ExecFenced(s, Step(p, freshId));
    assert PubOk(s.w, s.issued, s.pubs[p]);
    PubStepOk(s.w, s.pubs[p], s.issued, freshId);
  }

  lemma StepSound(s: Sys, p: nat, freshId: Text)
    requires Sound(s) && p in s.pubs && LevelAction(s, Step(p, freshId))
    ensures Sound(Exec(s, Step(p, freshId)))
  {
    hide Inv, Fenced, Labels, NothingLost, Exec, SameLive;
    StepMoves(s, p, freshId);
    ExecKeepsLabels(s, Step(p, freshId));
    ExecLosesNothing(s, Step(p, freshId));
    StepKeepsCurrent(s, p, freshId);
  }

  lemma StepKeepsCurrent(s: Sys, p: nat, freshId: Text)
    requires Inv(s) && Fenced(s) && p in s.pubs
    ensures Exec(s, Step(p, freshId)).w.current == s.w.current
  {
    hide Inv, Fenced, Exec;
    StepMoves(s, p, freshId);
  }

  // ----- fresh ids ----------------------------------------------------------------------

  lemma {:induction false} LongestId(ids: set<Text>) returns (n: nat)
    ensures forall t :: t in ids ==> |t| <= n
    decreases |ids|
  {
    n := 0;
    if ids != {} {
      var t :| t in ids;
      n := LongestId(ids - {t});
      n := if n < |t| then |t| else n;
    }
  }

  /** Ids never run out. */
  lemma FreshId(ids: set<Text>) returns (id: Text)
    ensures id != [] && id !in ids
  {
    var n := LongestId(ids);
    id := seq(n + 1, i => 0);
    assert |id| == n + 1;
  }

  lemma {:induction false} LargestKey(keys: set<nat>) returns (n: nat)
    ensures forall k :: k in keys ==> k <= n
    decreases |keys|
  {
    n := 0;
    if keys != {} {
      var k :| k in keys;
      var m := LargestKey(keys - {k});
      n := if m < k then k else m;
      forall x | x in keys ensures x <= n { assert x == k || x in keys - {k}; }
    }
  }

  // ----- paying all debts ------------------------------------------------------------------

  /** Only publisher q acts. */
  predicate OnlyBy(more: seq<Action>, q: nat) { forall i :: 0 <= i < |more| ==> more[i].Step? && more[i].p == q }

  /** Only publishers other than p act. */
  predicate Spares(more: seq<Action>, p: nat) {
    forall i :: 0 <= i < |more| ==> (more[i].Step? || more[i].Begin?) && more[i].p != p
  }

  /** A publisher that owes something goes on until it does not. */
  lemma {:induction false} Retire(s: Sys, q: nat) returns (more: seq<Action>)
    requires Sound(s) && q in s.pubs && Owes(s.w, s.pubs[q])
    ensures Inv(s) && LevelFrom(s, more) && OnlyBy(more, q)
    ensures var t := RunFrom(s, more);
            && Sound(t) && SameLive(s.w, t.w) && q in t.pubs && t.pubs == s.pubs[q := t.pubs[q]]
            && !Owes(t.w, t.pubs[q])
    decreases Ahead(s.pubs[q].pc)
  {
    hide Inv, Sound, Fenced, Exec, PubStep, Owes, LevelAction;
    SoundInv(s);
    var id := FreshId(s.issued);
    var a := Step(q, id);
    OwesIsLevel(s, q, id);
    StepMoves(s, q, id);
    StepSound(s, q, id);
    OwesGoesOn(s, q, id);
    FromOne(s, a);
    more := [a];
    var t := Exec(s, a);
    if Owes(t.w, t.pubs[q]) {
      var rest := Retire(t, q);
      FromConcat(s, [a], rest);
      more := [a] + rest;
    }
  }

  lemma OwesIsLevel(s: Sys, q: nat, id: Text)
    requires q in s.pubs && Owes(s.w, s.pubs[q])
    ensures LevelAction(s, Step(q, id))
  {
  }

  lemma OwesGoesOn(s: Sys, q: nat, id: Text)
    requires Consistent(s.w) && q in s.pubs && Owes(s.w, s.pubs[q]) && id != [] && id !in s.issued
    ensures Ahead(PubStep(s.w, s.pubs[q], s.issued, id).1.pc) < Ahead(s.pubs[q].pc)
  {
    hide PubStep, LiveOk;
    StepGoesOn(s.w, s.pubs[q], s.issued, id);
  }

  function Owing(s: Sys): set<nat> { set q | q in s.pubs && Owes(s.w, s.pubs[q]) }

  lemma OwingLess(s: Sys, t: Sys, q: nat)
    requires q in Owing(s) && SameLive(s.w, t.w) && q in t.pubs && t.pubs == s.pubs[q := t.pubs[q]]
    requires !Owes(t.w, t.pubs[q])
    ensures Owing(t) == Owing(s) - {q} && |Owing(t)| < |Owing(s)|
  {
    hide Owes, SameLive;
    forall r | r in s.pubs ensures Owes(t.w, s.pubs[r]) <==> Owes(s.w, s.pubs[r]) { OwesSame(s.w, t.w, s.pubs[r]); }
    forall r ensures r in Owing(t) <==> r in Owing(s) && r != q {
      if r in t.pubs && r != q { assert t.pubs[r] == s.pubs[r]; }
    }
    assert Owing(t) == Owing(s) - {q};
  }

  lemma {:induction false} RetireAll(s: Sys) returns (more: seq<Action>)
    requires Sound(s)
    ensures Inv(s) && LevelFrom(s, more) && forall p :: p !in s.pubs ==> Spares(more, p)
    ensures var t := RunFrom(s, more);
            Sound(t) && SameLive(s.w, t.w) && t.pubs.Keys == s.pubs.Keys && Owing(t) == {}
    decreases |Owing(s)|
  {
    hide Inv, Sound, Owes, Fenced, OnlyBy, Spares, LevelFrom, RunFrom, Exec;
    SoundInv(s);
    FromNone(s);
    more := [];
    assert forall p :: Spares(more, p) by { SparesNone(); }
    if Owing(s) != {} {
      var q :| q in Owing(s);
      more := Retire(s, q);
      var t := RunFrom(s, more);
      OwingLess(s, t, q);
      var rest := RetireAll(t);
      FromConcat(s, more, rest);
      forall p | p !in s.pubs ensures Spares(more + rest, p) { SparesMore(more, q, rest, p); }
      more := more + rest;
    }
  }

  lemma SparesNone()
    ensures forall p :: Spares([], p)
  {
  }

  lemma SparesMore(x: seq<Action>, q: nat, y: seq<Action>, p: nat)
    requires OnlyBy(x, q) && p != q && Spares(y, p)
    ensures Spares(x + y, p)
  {
  }

  // ----- publishing to the end ----------------------------------------------------------

  predicate HotAtMost(w: Window, c: Capture) {
    w.hot in w.snaps ==> LabelLe(w.snaps[w.hot].gen, w.snaps[w.hot].rev, c.gen, c.rev)
  }

  predicate HotIs(w: Window, c: Capture) {
    w.hot != [] && w.hot in w.snaps && w.snaps[w.hot].gen == c.gen && w.snaps[w.hot].rev == c.rev
  }

  /** Left alone from here, a publisher's capture ends up as the hot snapshot's label. */
  predicate Ready(w: Window, q: Pub) {
    && (q.pc == GetHot || q.pc == CheckRev || q.pc == CheckGen || q.pc == TakeFence || Pending(q) ==> HotAtMost(w, q.cap))
    && (q.pc == CheckRev || q.pc == CheckGen ==> q.currentId == w.hot)
    && (Pending(q) ==> q.fence == w.pubSeq)
    && (q.pc == ExpireRows || q.pc == ExpireMeta || q.pc == Done ==> HotIs(w, q.cap))
    && Ahead(q.pc) <= 9 && q.pc != Redirty
  }

  lemma AcceptedWhenNewest(w: Window, q: Pub)
    requires q.id in w.snaps && w.snaps[q.id] == SnapshotOf(q) && HotAtMost(w, q.cap) && SnapsFenced(w) && q.fence == w.pubSeq
    ensures PublishStep(w, q.id, q.fence, q.cap.gen, q.cap.rev, |q.cap.rows|) == (w.(hot := q.id), Published)
  {
    if w.hot in w.snaps && Less(w.snaps[w.hot].gen, q.cap.gen) {
      LessAsymmetric(w.snaps[w.hot].gen, q.cap.gen);
    } else {
      LessIrreflexive(q.cap.gen);
    }
  }

  lemma ReadyPublishes(w: Window, q: Pub, issued: set<Text>, freshId: Text)
    requires StoreOk(w, issued) && PubOk(w, issued, q) && Ready(w, q) && SnapsFenced(w) && q.pc == RunPublish
    ensures var (w', q', issued') := PubStep(w, q, issued, freshId);
            Ready(w', q') && w'.dirty == w.dirty && q'.cap == q.cap
  {
    hide PublishStep, LiveOk, Less, CaptureStep;
    AcceptedWhenNewest(w, q);
  }

  lemma ReadyStep(w: Window, q: Pub, issued: set<Text>, freshId: Text)
    requires StoreOk(w, issued) && PubOk(w, issued, q) && Ready(w, q) && SnapsFenced(w) && q.pc != RunPublish
    requires q.pc == WriteSnapshot ==> q.id != w.hot
    ensures var (w', q', issued') := PubStep(w, q, issued, freshId);
            Ready(w', q') && w'.dirty == w.dirty && q'.cap == q.cap
  {
    hide PubStep, PubOk, Ready, SnapsFenced, LiveOk;
    if q.pc == TakeFence || q.pc == WriteSnapshot {
      ReadyStages(w, q, issued, freshId);
    } else if q.pc == ExpireRows || q.pc == ExpireMeta {
      ReadyExpires(w, q, issued, freshId);
    } else if q.pc == GetHot || q.pc == CheckRev || q.pc == CheckGen {
      ReadyChecks(w, q, issued, freshId);
    } else {
      ReadyPcs(w, q);
      ReadyRests(w, q, issued, freshId);
    }
  }

  lemma ReadyPcs(w: Window, q: Pub)
    requires Ready(w, q) && !Pending(q) && q.pc != TakeFence
    requires q.pc != GetHot && q.pc != CheckRev && q.pc != CheckGen && q.pc != ExpireRows && q.pc != ExpireMeta
    ensures Ahead(q.pc) == 0
  {
  }

  lemma ReadyChecks(w: Window, q: Pub, issued: set<Text>, freshId: Text)
    requires StoreOk(w, issued) && PubOk(w, issued, q) && Ready(w, q)
    requires q.pc == GetHot || q.pc == CheckRev || q.pc == CheckGen
    ensures var (w', q', issued') := PubStep(w, q, issued, freshId);
            w' == w && Ready(w', q') && q'.cap == q.cap
  {
    hide LiveOk, SnapshotOf, LabelLe, HotAtMost;
  }

  lemma ReadyExpires(w: Window, q: Pub, issued: set<Text>, freshId: Text)
    requires Consistent(w) && Ready(w, q) && (q.pc == ExpireRows || q.pc == ExpireMeta)
    ensures var (w', q', issued') := PubStep(w, q, issued, freshId);
            Ready(w', q') && w'.dirty == w.dirty && q'.cap == q.cap
  {
    hide LiveOk, HotAtMost;
  }

  lemma ReadyRests(w: Window, q: Pub, issued: set<Text>, freshId: Text)
    requires Consistent(w) && Ready(w, q) && Ahead(q.pc) == 0
    ensures PubStep(w, q, issued, freshId) == (w, q, issued)
  {
    hide LiveOk, HotAtMost, HotIs;
  }

  lemma ReadyStages(w: Window, q: Pub, issued: set<Text>, freshId: Text)
    requires Consistent(w) && Ready(w, q) && (q.pc == TakeFence || q.pc == WriteSnapshot)
    requires q.pc == WriteSnapshot ==> q.id != w.hot
    ensures var (w', q', issued') := PubStep(w, q, issued, freshId);
            Ready(w', q') && w'.dirty == w.dirty && q'.cap == q.cap
  {
    hide LiveOk, SnapshotOf, LabelLe;
  }

  lemma ReadyMoves(w: Window, q: Pub, issued: set<Text>, id: Text)
    requires StoreOk(w, issued) && PubOk(w, issued, q) && Ready(w, q) && SnapsFenced(w) && q.pc != Done
    requires id != [] && id !in issued
    ensures var (w', q', issued') := PubStep(w, q, issued, id);
            Ready(w', q') && w'.dirty == w.dirty && q'.cap == q.cap && Ahead(q'.pc) < Ahead(q.pc)
  {
    hide PubStep, PubOk, LiveOk, SnapsFenced, Ready;
    WaitingIsNotHot(w, issued, q);
    StepGoesOn(w, q, issued, id);
    if q.pc == RunPublish { ReadyPublishes(w, q, issued, id); } else { ReadyStep(w, q, issued, id); }
  }

  lemma PubFacts(s: Sys, q: nat, id: Text)
    requires Inv(s) && Fenced(s) && q in s.pubs
    ensures StoreOk(s.w, s.issued) && PubOk(s.w, s.issued, s.pubs[q]) && SnapsFenced(s.w)
    ensures s.pubs[q].pc != RunCapture ==> LevelAction(s, Step(q, id))
  {
    hide PubOk, StoreOk, Apart, SnapsFenced;
  }

  lemma WaitingIsNotHot(w: Window, issued: set<Text>, q: Pub)
    requires PubOk(w, issued, q)
    ensures q.pc == WriteSnapshot ==> q.id != w.hot
  {
  }

  lemma NotCapturing(w: Window, q: Pub)
    requires Ready(w, q)
    ensures q.pc != RunCapture
  {
  }

  lemma ReadyDone(w: Window, q: Pub)
    requires Ready(w, q)
    ensures q.pc == Done ==> HotIs(w, q.cap)
  {
  }

  lemma {:induction false} Finish(s: Sys, q: nat) returns (more: seq<Action>)
    requires Inv(s) && Fenced(s) && q in s.pubs && Ready(s.w, s.pubs[q])
    ensures LevelFrom(s, more) && OnlyBy(more, q)
    ensures var t := RunFrom(s, more);
            && Fenced(t) && SameLive(s.w, t.w) && t.w.dirty == s.w.dirty
            && q in t.pubs && t.pubs == s.pubs[q := t.pubs[q]] && t.pubs[q].pc == Done
            && HotIs(t.w, s.pubs[q].cap)
    decreases Ahead(s.pubs[q].pc)
  {
    hide Inv, Fenced, Exec, Ready, HotIs, LevelFrom, RunFrom, PubStep, LevelAction;
    more := [];
    FromNone(s);
    InvConsistent(s);
    ReadyDone(s.w, s.pubs[q]);
    if s.pubs[q].pc != Done {
      var id := FreshId(s.issued);
      var a := Step(q, id);
      PubFacts(s, q, id);
      NotCapturing(s.w, s.pubs[q]);
      ReadyMoves(s.w, s.pubs[q], s.issued, id);
      StepMoves(s, q, id);
      FromOne(s, a);
      var rest := Finish(Exec(s, a), q);
      FromConcat(s, [a], rest);
      more := [a] + rest;
    }
  }

  // ----- a worker's pass -----------------------------------------------------------------------

  /** One more call of publisher n, from a state in which its locals are q. */
  lemma Extend(s: Sys, more: seq<Action>, n: nat, w: Window, q: Pub, w': Window, q': Pub)
    requires Inv(s) && LevelFrom(s, more)
    requires RunFrom(s, more) == Sys(w, s.pubs[n := q], s.issued) && Consistent(w)
    requires PubStep(w, q, s.issued, []) == (w', q', s.issued) && (q.pc == RunCapture ==> CaptureIsLevel(w, q))
    ensures RunFrom(s, more + [Step(n, [])]) == Sys(w', s.pubs[n := q'], s.issued)
    ensures LevelFrom(s, more + [Step(n, [])])
  {
    hide Inv, PubStep, LiveOk, LevelFrom, RunFrom;
    var t := RunFrom(s, more);
    FromConcat(s, more, [Step(n, [])]);
    FromOne(t, Step(n, []));
    assert t.pubs[n := q'] == s.pubs[n := q'];
  }

  lemma WorkerTakesFlag(w: Window, issued: set<Text>)
    requires Consistent(w) && w.dirty
    ensures var q := NewPub(false).(hasDirty := true);
            && PubStep(w, NewPub(false), issued, []) == (w, q.(pc := ReadHot), issued)
            && PubStep(w, q.(pc := ReadHot), issued, []) == (w, q.(pc := ClearDirty), issued)
            && PubStep(w, q.(pc := ClearDirty), issued, []) == (w.(dirty := false), q.(pc := ReadGen), issued)
  {
    hide LiveOk;
  }

  lemma WorkerCaptures(v: Window, q: Pub, issued: set<Text>)
    requires Consistent(v) && v.current != [] && q.pc == ReadGen
    ensures var p := q.(gen := v.current, pc := ReadPrev);
            var r := p.(prev := v.previous, pc := RunCapture);
            && PubStep(v, q, issued, []) == (v, p, issued)
            && PubStep(v, p, issued, []) == (v, r, issued)
            && PubStep(v, r, issued, []) == (v, r.(cap := LiveCapture(v), pc := GetHot), issued)
            && CaptureIsLevel(v, r)
  {
    hide LiveOk, BoardRows;
  }

  /** A fresh worker, left alone, takes the flag and captures the live board. */
  lemma Worker(s: Sys, n: nat) returns (more: seq<Action>, q: Pub)
    requires Inv(s) && n !in s.pubs && s.w.dirty && s.w.current != []
    ensures LevelFrom(s, more) && forall p :: p != n ==> Spares(more, p)
    ensures RunFrom(s, more) == Sys(s.w.(dirty := false), s.pubs[n := q], s.issued)
    ensures q.pc == GetHot && q.cap.gen == s.w.current && q.cap.rev == LiveRev(s.w)
  {
    hide Inv, PubStep, LiveOk, LevelFrom, RunFrom, LiveCapture, CaptureIsLevel, Exec;
    var (w, v, ids) := (s.w, s.w.(dirty := false), s.issued);
    InvConsistent(s);
    Cleared(w);
    WorkerTakesFlag(w, ids);
    var q0, q1 := NewPub(false), NewPub(false).(hasDirty := true, pc := ReadHot);
    WorkerCaptures(v, q1.(pc := ReadGen), ids);
    var q2 := q1.(gen := v.current, pc := ReadPrev);
    var q3 := q2.(prev := v.previous, pc := RunCapture);
    var a := [Begin(n, false)];
    FromOne(s, a[0]);
    BeginIs(s, n);
    Extend(s, a, n, w, q0, w, q1);
    var b := a + [Step(n, [])];
    Extend(s, b, n, w, q1, w, q1.(pc := ClearDirty));
    var c := b + [Step(n, [])];
    Extend(s, c, n, w, q1.(pc := ClearDirty), v, q1.(pc := ReadGen));
    var d := c + [Step(n, [])];
    Extend(s, d, n, v, q1.(pc := ReadGen), v, q2);
    var e := d + [Step(n, [])];
    Extend(s, e, n, v, q2, v, q3);
    var f := e + [Step(n, [])];
    q := q3.(cap := LiveCapture(v), pc := GetHot);
    Extend(s, f, n, v, q3, v, q);
    more := f + [Step(n, [])];
    LiveCaptureLabel(w, v);
  }

  lemma BeginIs(s: Sys, n: nat)
    requires Consistent(s.w) && n !in s.pubs
    ensures Exec(s, Begin(n, false)) == Sys(s.w, s.pubs[n := NewPub(false)], s.issued)
    ensures LevelAction(s, Begin(n, false))
  {
    hide LiveOk;
  }

  lemma Cleared(w: Window)
    requires Consistent(w)
    ensures Consistent(w.(dirty := false)) && ValidBoard(At(w, w.current).board)
  {
    hide ValidBoard, Less;
    assert ValidBoard(map[]) by { EmptyBoardValid(); }
  }

  lemma EmptyBoardValid()
    ensures ValidBoard(map[])
  {
  }

  lemma LiveCaptureLabel(w: Window, v: Window)
    requires Consistent(v) && v == w.(dirty := false)
    ensures LiveCapture(v).gen == w.current && LiveCapture(v).rev == LiveRev(w)
  {
    hide BoardRows;
  }

  // ----- everybody else settled -----------------------------------------------------------------

  ghost predicate Settled(t: Sys) { Inv(t) && Fenced(t) && UpToDate(t.w) && !t.w.dirty && Owing(t) == {} }

  lemma WorkerReady(s: Sys, t: Sys, q: Pub)
    requires Sound(s) && t.w == s.w.(dirty := false)
    requires q.pc == GetHot && q.cap.gen == s.w.current && q.cap.rev == LiveRev(s.w)
    ensures Ready(t.w, q)
  {
    hide Inv, Fenced, NothingLost, LabelLe, PubLabels;
    if s.w.hot in s.w.snaps {
      assert LabelLe(s.w.snaps[s.w.hot].gen, s.w.snaps[s.w.hot].rev, s.w.current, LiveRev(s.w));
    }
  }

  lemma FencedBesides(s: Sys, t: Sys, n: nat, q: Pub)
    requires Fenced(s) && t == Sys(s.w.(dirty := false), s.pubs[n := q], s.issued) && !Pending(q)
    ensures Fenced(t)
  {
  }

  lemma OwingAfterPass(s: Sys, t: Sys, n: nat)
    requires Owing(s) == {} && SameLive(s.w, t.w) && n in t.pubs && t.pubs == s.pubs[n := t.pubs[n]] && t.pubs[n].pc == Done
    ensures Owing(t) == {}
  {
    hide Owes, SameLive;
    DoneOwesNothing(t.w, t.pubs[n]);
    forall r | r in t.pubs ensures !Owes(t.w, t.pubs[r]) {
      if r != n {
        OwesSame(s.w, t.w, s.pubs[r]);
        assert r !in Owing(s);
      }
    }
  }

  lemma DoneOwesNothing(w: Window, q: Pub)
    requires q.pc == Done
    ensures !Owes(w, q)
  {
  }

  /** A whole pass of a fresh worker when nobody else owes anything. */
  lemma Pass(s: Sys, avoid: nat) returns (more: seq<Action>)
    requires Sound(s) && Owing(s) == {} && s.w.dirty && avoid !in s.pubs
    ensures Inv(s) && LevelFrom(s, more) && Spares(more, avoid)
    ensures Settled(RunFrom(s, more)) && SameLive(s.w, RunFrom(s, more).w)
  {
    hide Inv, Sound, Fenced, LevelFrom, RunFrom, Ready, Spares, OnlyBy, Owing, UpToDate, HotIs;
    SoundInv(s);
    SoundCurrent(s);
    var k := LargestKey(s.pubs.Keys + {avoid});
    var n := k + 1;
    assert avoid in s.pubs.Keys + {avoid} && n !in s.pubs.Keys + {avoid};
    var q;
    more, q := Worker(s, n);
    var t := RunFrom(s, more);
    WorkerReady(s, t, q);
    FencedBesides(s, t, n, q);
    var rest := Finish(t, n);
    var u := RunFrom(t, rest);
    FromConcat(s, more, rest);
    assert u.pubs == s.pubs[n := u.pubs[n]];
    OwingAfterPass(s, u, n);
    HotIsUpToDate(s.w, u.w, q.cap);
    SparesBoth(more, rest, n, avoid);
    more := more + rest;
  }

  lemma SoundCurrent(s: Sys)
    requires Sound(s)
    ensures s.w.current != []
  {
    hide Inv, Fenced, Labels, NothingLost;
  }

  lemma HotIsUpToDate(w: Window, u: Window, c: Capture)
    requires SameLive(w, u) && HotIs(u, c) && c.gen == w.current && c.rev == LiveRev(w)
    ensures UpToDate(u)
  {
  }

  lemma SparesBoth(x: seq<Action>, y: seq<Action>, n: nat, p: nat)
    requires Spares(x, p) && OnlyBy(y, n) && n != p
    ensures Spares(x + y, p)
  {
  }

  /** From any sound state there is a level continuation, sparing any publisher not in
      it, after which the hot snapshot is up to date, the flag clear and nobody owes. */
  lemma Settle(s: Sys, avoid: nat) returns (more: seq<Action>)
    requires Sound(s) && avoid !in s.pubs
    ensures Inv(s) && LevelFrom(s, more) && Spares(more, avoid)
    ensures Settled(RunFrom(s, more)) && SameLive(s.w, RunFrom(s, more).w)
  {
    hide Inv, Sound, Fenced, LevelFrom, RunFrom, Spares, Owing, Settled;
    more := RetireAll(s);
    var t := RunFrom(s, more);
    if t.w.dirty {
      var rest := Pass(t, avoid);
      FromConcat(s, more, rest);
      SparesConcat(more, rest, avoid);
      more := more + rest;
    } else {
      NothingLeft(t);
    }
  }

  lemma SparesConcat(x: seq<Action>, y: seq<Action>, p: nat)
    requires Spares(x, p) && Spares(y, p)
    ensures Spares(x + y, p)
  {
  }

  lemma NothingLeft(t: Sys)
    requires Sound(t) && !t.w.dirty && Owing(t) == {}
    ensures Settled(t)
  {
    hide Inv, Fenced, Labels, Owes, UpToDate;
    forall o | o in t.pubs ensures !Owes(t.w, t.pubs[o]) { assert o !in Owing(t); }
  }

  // ----- a publisher that stands aside ------------------------------------------------------------

  function Without(s: Sys, p: nat): Sys { Sys(s.w, s.pubs - {p}, s.issued) }

  lemma WithoutInv(s: Sys, p: nat)
    requires Inv(s)
    ensures Inv(Without(s, p))
  {
    hide PubOk, Apart, StoreOk;
  }

  lemma ExecWithout(s: Sys, p: nat, a: Action)
    requires Consistent(s.w) && p in s.pubs && (a.Step? || a.Begin?) && a.p != p
    ensures Exec(Without(s, p), a) == Without(Exec(s, a), p)
    ensures p in Exec(s, a).pubs && Exec(s, a).pubs[p] == s.pubs[p]
    ensures LevelAction(Without(s, p), a) <==> LevelAction(s, a)
  {
    hide PubStep, LiveOk, CaptureIsLevel;
    if a.Step? && a.p in s.pubs {
      var q := PubStep(s.w, s.pubs[a.p], s.issued, a.freshId).1;
      assert (s.pubs - {p})[a.p := q] == s.pubs[a.p := q] - {p};
    }
    if a.Begin? {
      assert (s.pubs - {p})[a.p := NewPub(a.direct)] == s.pubs[a.p := NewPub(a.direct)] - {p};
    }
  }

  /** What the others do is the same with and without p, who keeps its locals. */
  lemma {:induction false} Lift(s: Sys, p: nat, more: seq<Action>)
    requires Inv(s) && p in s.pubs && Spares(more, p)
    ensures Inv(Without(s, p)) && RunFrom(Without(s, p), more) == Without(RunFrom(s, more), p)
    ensures p in RunFrom(s, more).pubs && RunFrom(s, more).pubs[p] == s.pubs[p]
    ensures LevelFrom(Without(s, p), more) <==> LevelFrom(s, more)
    decreases |more|
  {
    hide Inv, Exec, LevelAction;
    WithoutInv(s, p);
    if more != [] {
      InvConsistent(s);
      ExecWithout(s, p, more[0]);
      ExecKeepsInv(s, more[0]);
      Lift(Exec(s, more[0]), p, more[1..]);
    }
  }

  // ----- the losing continuation --------------------------------------------------------------------

  ghost predicate About(s: Sys, p: nat) { p in s.pubs && s.pubs[p].pc == RunCapture }

  lemma CaptureValue(w: Window, q: Pub, issued: set<Text>, id: Text)
    requires Consistent(w) && PubOk(w, issued, q) && q.pc == RunCapture
    ensures var (w', q', issued') := PubStep(w, q, issued, id);
            && w.current != [] && w' == w && issued' == issued && q'.pc == GetHot
            && q'.cap.gen == w.current && q'.cap.rev == At(w, q.gen).revision
  {
    hide BoardRows;
  }

  lemma CapturedAbove(s: Sys, p: nat, id: Text)
    requires Inv(s) && About(s, p)
    ensures var t := Exec(s, Step(p, id));
            && s.w.current != [] && p in t.pubs && t.w == s.w && t.issued == s.issued
            && t.pubs == s.pubs[p := t.pubs[p]] && t.pubs[p].pc == GetHot
            && t.pubs[p].cap.gen == s.w.current && t.pubs[p].cap.rev == At(s.w, s.pubs[p].gen).revision
  {
    hide PubStep, PubOk, Apart, LiveOk;
    CaptureValue(s.w, s.pubs[p], s.issued, id);
  }

  /** Everything but p's own capture stays sound. */
  lemma SoundBesides(s: Sys, p: nat, t: Sys)
    requires Sound(s) && About(s, p) && !CaptureIsLevel(s.w, s.pubs[p])
    requires Inv(t) && p in t.pubs && t.w == s.w && t.issued == s.issued && t.pubs == s.pubs[p := t.pubs[p]]
    ensures Sound(Without(t, p))
  {
    hide PubOk, Apart, StoreOk, PubLabels, SnapsFenced, LabelLe, UpToDate;
    WithoutInv(t, p);
    var v := Without(t, p);
    assert Labels(v) && Fenced(v);
    if !UpToDate(s.w) && !s.w.dirty {
      var o :| o in s.pubs && Owes(s.w, s.pubs[o]);
      assert o in v.pubs && Owes(v.w, v.pubs[o]);
    }
  }

  lemma AboveIsReady(t: Sys, p: nat)
    requires p in t.pubs && t.pubs[p].pc == GetHot && UpToDate(t.w)
    requires t.pubs[p].cap.gen == t.w.current && t.pubs[p].cap.rev > LiveRev(t.w)
    ensures Ready(t.w, t.pubs[p])
  {
  }

  lemma FencedWith(t: Sys, p: nat)
    requires Fenced(Without(t, p)) && p in t.pubs && !Pending(t.pubs[p])
    ensures Fenced(t)
  {
    hide SnapsFenced;
    forall r | r in t.pubs && Pending(t.pubs[r]) ensures t.pubs[r].fence <= t.w.pubSeq {
      assert r in Without(t, p).pubs;
    }
  }

  /** The hot snapshot claims a revision above the live one, the flag is clear and
      nobody owes a publication. */
  ghost predicate Lost(u: Sys, rev: nat) {
    && u.w.current != [] && HotIs(u.w, Capture(u.w.current, rev, 0, [])) && rev > LiveRev(u.w)
    && !u.w.dirty && Owing(u) == {}
  }

  lemma LostIsLost(u: Sys, rev: nat)
    requires Lost(u, rev)
    ensures !NothingLost(u)
  {
    hide Owes;
    forall p | p in u.pubs ensures !Owes(u.w, u.pubs[p]) { assert p !in Owing(u); }
  }

  lemma EndsLost(t: Sys, u: Sys, p: nat)
    requires Owing(Without(t, p)) == {} && !t.w.dirty && t.w.current != []
    requires p in t.pubs && t.pubs[p].cap.gen == t.w.current && t.pubs[p].cap.rev > LiveRev(t.w)
    requires SameLive(t.w, u.w) && u.w.dirty == t.w.dirty && HotIs(u.w, t.pubs[p].cap)
    requires p in u.pubs && u.pubs == t.pubs[p := u.pubs[p]] && u.pubs[p].pc == Done
    ensures Lost(u, t.pubs[p].cap.rev)
  {
    hide Owes;
    DoneOwesNothing(u.w, u.pubs[p]);
    forall r | r in u.pubs ensures !Owes(u.w, u.pubs[r]) {
      if r != p {
        OwesSame(t.w, u.w, t.pubs[r]);
        assert r in Without(t, p).pubs && r !in Owing(Without(t, p));
      }
    }
  }

  /** After a capture above the live revision the other publishers can settle first
      and this one publish last: level calls only, and the update is lost. */
  lemma AboveLoses(acts: seq<Action>, p: nat, id: Text) returns (more: seq<Action>)
    requires Level(acts) && About(After(acts), p) && !CaptureIsLevel(After(acts).w, After(acts).pubs[p])
    ensures LevelFrom(After(acts + [Step(p, id)]), more)
    ensures var w := After(acts).w;
            var u := After(acts + [Step(p, id)] + more);
            Lost(u, At(w, After(acts).pubs[p].gen).revision) && SameLive(w, u.w)
  {
    hide Inv, Exec, Fenced, Labels, NothingLost, LevelFrom, RunFrom, Spares, OnlyBy, Owing, UpToDate, Ready, HotIs, Lost;
    var s := After(acts);
    LevelLabels(acts);
    NoLostPublication(acts);
    RunFenced(acts);
    AfterSnoc(acts, Step(p, id));
    var s1 := After(acts + [Step(p, id)]);
    CapturedAbove(s, p, id);
    SoundBesides(s, p, s1);
    var first := Settle(Without(s1, p), p);
    Lift(s1, p, first);
    var t := RunFrom(s1, first);
    AboveIsReady(t, p);
    FencedWith(t, p);
    var last := Finish(t, p);
    var u := RunFrom(t, last);
    EndsLost(t, u, p);
    FromConcat(s1, first, last);
    FromAfter(acts + [Step(p, id)], first + last);
    more := first + last;
  }

  /** The exact condition: a run that has been level so far can lose an update after
      p's capture, all further captures being level, if and only if that capture
      script runs above the live revision. */
  lemma LossExactly(acts: seq<Action>, p: nat, id: Text)
    requires Level(acts) && About(After(acts), p)
    ensures CaptureIsLevel(After(acts).w, After(acts).pubs[p]) <==>
              forall more :: LevelFrom(After(acts + [Step(p, id)]), more) ==> NothingLost(After(acts + [Step(p, id)] + more))
  {
    hide Inv, Exec, Fenced, Labels, NothingLost, LevelFrom, RunFrom, CaptureIsLevel;
    var one := acts + [Step(p, id)];
    if CaptureIsLevel(After(acts).w, After(acts).pubs[p]) {
      assert one[..|acts|] == acts;
      forall more | LevelFrom(After(one), more) ensures NothingLost(After(one + more)) {
        FromAfter(one, more);
        NoLostPublication(one + more);
      }
    } else {
      var more := AboveLoses(acts, p, id);
      LostIsLost(After(one + more), At(After(acts).w, After(acts).pubs[p].gen).revision);
    }
  }

  // ----- the loss is not repaired by the next change ---------------------------------------------------

  /** When the hot label is one revision ahead, the next live change only makes the
      labels meet: the same snapshot stays hot and now counts as up to date. */
  lemma NextChangeMeetsLabel(u: Sys, user: Text, e: Entry)
    requires Inv(u) && Lost(u, LiveRev(u.w) + 1) && ValidUpdate(user, e)
    ensures var w := Exec(u, Update(u.w.current, user, e)).w;
            && w.hot == u.w.hot && w.snaps == u.w.snaps
            && (LiveRev(w) != LiveRev(u.w) ==> UpToDate(w))
  {
    hide PubOk, Apart, ValidBoard;
    LessIrreflexive(u.w.current);
  }

  /** A publisher that captured the live label then finds it published and stops. */
  lemma PassSkips(w: Window, q: Pub, issued: set<Text>, id: Text)
    requires Consistent(w) && UpToDate(w) && q.pc == GetHot && q.cap.gen == w.current && q.cap.rev == LiveRev(w)
    ensures var p := q.(currentId := w.hot);
            && PubStep(w, q, issued, id) == (w, p.(pc := CheckRev), issued)
            && PubStep(w, p.(pc := CheckRev), issued, id) == (w, p.(pc := CheckGen), issued)
            && PubStep(w, p.(pc := CheckGen), issued, id) == (w, p.(pc := Done), issued)
  {
    hide LiveOk;
  }
}
