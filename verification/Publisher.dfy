/** The publisher's own statements, run without interruption, proved to be the steps
    of the publisher state machine. */
module Publisher {
  import opened Bytes
  import opened Decimal
  import opened Board
  import opened Window
  import opened Publish
  import opened Publication
  import Loss
  import opened Scripts

  type Local = (Window, Pub, set<Text>)

  /** n Redis calls of one publisher with nothing in between. */
  function Calls(w: Window, q: Pub, issued: set<Text>, freshId: Text, n: nat): Local {
    if n == 0 then (w, q, issued) else
      var (v, p, ids) := Calls(w, q, issued, freshId, n - 1);
      if Consistent(v) then PubStep(v, p, ids, freshId) else (v, p, ids)
  }

  lemma OneCall(w: Window, q: Pub, issued: set<Text>, freshId: Text, n: nat)
    requires Consistent(Calls(w, q, issued, freshId, n).0)
    ensures var (v, p, ids) := Calls(w, q, issued, freshId, n);
            Calls(w, q, issued, freshId, n + 1) == PubStep(v, p, ids, freshId)
  {
    hide PubStep, LiveOk;
  }

  lemma {:induction false} CallsAdd(w: Window, q: Pub, issued: set<Text>, freshId: Text, m: nat, n: nat)
    ensures var (v, p, ids) := Calls(w, q, issued, freshId, m);
            Calls(w, q, issued, freshId, m + n) == Calls(v, p, ids, freshId, n)
  {
    hide PubStep, LiveOk;
    if n > 0 { CallsAdd(w, q, issued, freshId, m, n - 1); }
  }

  function Steps(p: nat, freshId: Text, n: nat): seq<Action> {
    if n == 0 then [] else Steps(p, freshId, n - 1) + [Step(p, freshId)]
  }

  /** Calls with nothing in between are a stretch of a run, so whatever is proved of
      runs holds of them. */
  lemma {:induction false} CallsAreSteps(acts: seq<Action>, p: nat, freshId: Text, n: nat)
    requires p in After(acts).pubs
    ensures var (s, t) := (After(acts), After(acts + Steps(p, freshId, n)));
            var (w, q, ids) := Calls(s.w, s.pubs[p], s.issued, freshId, n);
            t.w == w && t.pubs == s.pubs[p := q] && t.issued == ids
  {
    hide PubStep, LiveOk, Inv, Exec, After;
    if n == 0 {
      assert acts + Steps(p, freshId, 0) == acts;
    } else {
      CallsAreSteps(acts, p, freshId, n - 1);
      var front := acts + Steps(p, freshId, n - 1);
      assert acts + Steps(p, freshId, n) == front + [Step(p, freshId)];
      AfterConsistent(front);
      AfterSnoc(front, Step(p, freshId));
      StepIs(After(front), p, freshId);
    }
  }

  lemma AfterConsistent(acts: seq<Action>)
    ensures Consistent(After(acts).w)
  {
    hide LiveOk;
  }

  lemma StepIs(s: Sys, p: nat, freshId: Text)
    requires Consistent(s.w) && p in s.pubs
    ensures var (w, q, ids) := PubStep(s.w, s.pubs[p], s.issued, freshId);
            Exec(s, Step(p, freshId)) == Sys(w, s.pubs[p := q], ids)
  {
    hide PubStep, LiveOk;
  }

  /** The current snapshot carries this label. */
  predicate Labelled(w: Window, gen: Text, rev: nat) {
    w.hot != [] && w.hot in w.snaps && w.snaps[w.hot].gen == gen && w.snaps[w.hot].rev == rev
  }

  /** The current snapshot is newer than this label or than the next fence. */
  predicate Newer(w: Window, gen: Text, rev: nat) {
    w.hot != [] && w.hot in w.snaps &&
    var h := w.snaps[w.hot];
    Less(gen, h.gen) || (h.gen == gen && rev < h.rev) || w.pubSeq + 1 < h.fence
  }

  /** A publication of the live label would be staged and then rejected. */
  predicate Rejects(w: Window) {
    w.current != [] && !Labelled(w, w.current, LiveRev(w)) && Newer(w, w.current, LiveRev(w))
  }

  /** A rejected publish of a dirty window is what counts as a failure. */
  predicate Fails(w: Window) { w.dirty && Rejects(w) }

  /** The window with a capture staged under a fresh id and the next fence. */
  function Staged(w: Window, c: Capture, freshId: Text): Window {
    w.(pubSeq := w.pubSeq + 1, snaps := w.snaps[freshId := SnapshotFrom(c, w.pubSeq + 1)])
  }

  /** The same published, with the snapshot that was current scheduled for expiry. */
  function Released(w: Window, c: Capture, freshId: Text): Window {
    Staged(w, c, freshId).(hot := freshId, expiring := w.expiring + (if w.hot != [] then {w.hot} else {}))
  }

  /** The window after a publication of the live board that nothing interrupts. */
  function PublishedHot(w: Window, freshId: Text): Window
    requires Consistent(w)
  {
    if w.current == [] || Labelled(w, w.current, LiveRev(w)) then w
    else if Newer(w, w.current, LiveRev(w)) then Staged(w, LiveCapture(w), freshId)
    else Released(w, LiveCapture(w), freshId)
  }

  /** The window after a worker's pass: clean windows with a snapshot are left alone, and
      the flag goes with the publication unless that is rejected. */
  function PassedOver(w: Window, freshId: Text): Window
    requires Consistent(w)
  {
    if !w.dirty && w.hot != [] then w
    else PublishedHot(w.(dirty := false), freshId).(dirty := w.dirty && Rejects(w))
  }

  /** What a pass over a window with a generation achieves: unless the publication is
      rejected the current snapshot carries the live label, and a new one is the live
      board itself, the old one due to expire; a rejection leaves it current and flagged. */
  lemma PassPublishes(w: Window, freshId: Text)
    requires Consistent(w) && w.current != [] && (w.dirty || w.hot == []) && freshId != [] && freshId != w.hot
    ensures var w' := PassedOver(w, freshId);
      && w'.current == w.current && w'.previous == w.previous && w'.gens == w.gens
      && (w'.hot != w.hot ==> w'.hot == freshId && (w.hot != [] ==> w.hot in w'.expiring))
      && (w'.hot == freshId ==> w'.snaps[freshId] == SnapshotFrom(LiveCapture(w), w.pubSeq + 1))
      && (!Rejects(w) ==> UpToDate(w') && !w'.dirty)
      && (Rejects(w) ==> w'.hot == w.hot && w'.dirty)
  {
    UnflaggedSame(w);
    hide Less, LiveOk, LiveCapture, Consistent, Labelled, Newer;
    var v := w.(dirty := false);
    LabelledIs(w);
    if !Labelled(w, w.current, LiveRev(w)) && !Newer(w, w.current, LiveRev(w)) {
      ReleasedIs(v, LiveCapture(w), freshId);
    }
  }

  /** The flag has no part in what is captured and compared. */
  lemma UnflaggedSame(w: Window)
    requires Consistent(w)
    ensures var v := w.(dirty := false);
      && Consistent(v) && LiveRev(v) == LiveRev(w) && ValidBoard(At(w, w.current).board) && LiveCapture(v) == LiveCapture(w)
      && LiveCapture(w).gen == w.current && LiveCapture(w).rev == LiveRev(w)
      && forall g, r :: (Labelled(v, g, r) <==> Labelled(w, g, r)) && (Newer(v, g, r) <==> Newer(w, g, r))
  {
    hide Less;
  }

  lemma LabelledIs(w: Window)
    ensures Labelled(w, w.current, LiveRev(w)) ==> UpToDate(w.(dirty := false))
  {
  }

  lemma ReleasedIs(w: Window, c: Capture, freshId: Text)
    requires freshId != [] && c.gen == w.current && c.rev == LiveRev(w)
    ensures var r := Released(w, c, freshId);
      && r.hot == freshId && freshId in r.snaps && r.snaps[freshId] == SnapshotFrom(c, w.pubSeq + 1)
      && UpToDate(r.(dirty := false)) && (w.hot != [] ==> w.hot in r.expiring)
  {
  }

  /** The publish script on what has just been staged. */
  lemma StagedVerdict(w: Window, c: Capture, freshId: Text)
    requires freshId != w.hot
    ensures var w' := w.(pubSeq := w.pubSeq + 1, snaps := w.snaps[freshId := SnapshotFrom(c, w.pubSeq + 1)]);
            PublishStep(w', freshId, w.pubSeq + 1, c.gen, c.rev, |c.rows|).1 != Published <==> Newer(w, c.gen, c.rev)
  {
    hide Less;
  }

  /** In a level run nothing published is newer than what is live. */
  lemma LevelNeverRejects(acts: seq<Action>)
    requires Level(acts)
    ensures !Rejects(After(acts).w)
  {
    hide PubOk, Apart, PubLabels, Less;
    var w := After(acts).w;
    LevelLabels(acts);
    Loss.RunFenced(acts);
    if w.hot in w.snaps {
      var h := w.snaps[w.hot];
      if Less(w.current, h.gen) && Less(h.gen, w.current) { LessAsymmetric(w.current, h.gen); }
      LessIrreflexive(w.current);
    }
  }

  /** The hot snapshot's label check of PublishHot. */
  lemma LabelCompared(meta: map<Text, HotMeta>, rows: map<Text, seq<Text>>, snaps: map<Text, Snapshot>, id: Text,
          c: Capture)
    requires HotMirrors(meta, rows, snaps)
    ensures id in meta <==> id in snaps
    ensures id in snaps ==> (meta[id].revision == CaptureText(c).rev <==> snaps[id].rev == c.rev)
                            && (meta[id].generation == c.gen <==> snaps[id].gen == c.gen)
  {
    hide Digits, Value, RowTexts;
    if id in snaps {
      assert StoredSnapshot(meta[id], RowsAt(rows, id), snaps[id]);
      DigitsInjective(snaps[id].rev, c.rev);
    }
  }

  /** captureHot: the generation and its predecessor are read before the script runs. */
  method CaptureHot(store: WindowStore, ghost q: Pub, ghost issued: set<Text>, freshId: Text)
    returns (c: Option<CaptureTexts>, ghost p: Pub, ghost n: nat)
    requires store.Valid() && q.pc == ReadGen
    ensures c == (if store.current == [] then None else Some(CaptureText(LiveCapture(store.model))))
    ensures Calls(store.model, q, issued, freshId, n) == (store.model, p, issued)
    ensures p == p.(hasDirty := q.hasDirty) && p.pc == (if c.Some? then GetHot else Done)
    ensures c.Some? ==> c.value == CaptureText(p.cap) && p.cap == LiveCapture(store.model)
  {
    hide Digits, Value, Mirrors, HotMirrors, LiveOk, CaptureText, Calls;
    ghost var w := store.model;
    CallsNone(w, q, issued, freshId);
    var gen := store.current;
    OneCall(w, q, issued, freshId, 0);
    p, n := q.(gen := gen, pc := if gen == [] then Done else ReadPrev), 1;
    if gen == [] { return None, p, 1; }
    var prev := store.previous;
    OneCall(w, q, issued, freshId, 1);
    p, n := p.(prev := prev, pc := RunCapture), 2;
    OneCall(w, q, issued, freshId, 2);
    ghost var captured := CaptureOfStep(w, gen, prev);
    c := store.CaptureScript(gen, prev);
    p, n := p.(cap := captured, pc := GetHot), 3;
  }

  lemma CallsNone(w: Window, q: Pub, issued: set<Text>, freshId: Text)
    ensures Calls(w, q, issued, freshId, 0) == (w, q, issued)
  {
  }

  ghost function CaptureOfStep(w: Window, g: Text, p: Text): (c: Capture)
    requires Consistent(w) && w.current != []
    ensures CaptureStep(w, g, p) == Some(c)
    ensures g == w.current && p == w.previous ==> c == LiveCapture(w)
  {
    CaptureStep(w, g, p).value
  }

  // ----- one call at a time --------------------------------------------------------------

  /** n calls lead to a state from which the next one leads on. */
  lemma CallThen(w0: Window, q0: Pub, issued0: set<Text>, freshId: Text, n: nat, w: Window, q: Pub, issued: set<Text>)
    requires Calls(w0, q0, issued0, freshId, n) == (w, q, issued) && Consistent(w)
    ensures Calls(w0, q0, issued0, freshId, n + 1) == PubStep(w, q, issued, freshId)
  {
    OneCall(w0, q0, issued0, freshId, n);
  }

  lemma FenceCall(w: Window, q: Pub, issued: set<Text>, freshId: Text)
    requires Consistent(w) && q.pc == TakeFence && freshId != [] && freshId !in issued
    ensures PubStep(w, q, issued, freshId)
         == (w.(pubSeq := w.pubSeq + 1), q.(id := freshId, fence := w.pubSeq + 1, pc := Pc.WriteSnapshot), issued + {freshId})
  {
  }

  lemma WriteCall(w: Window, q: Pub, issued: set<Text>, freshId: Text)
    requires Consistent(w) && q.pc == Pc.WriteSnapshot
    ensures PubStep(w, q, issued, freshId)
         == (w.(snaps := w.snaps[q.id := SnapshotFrom(q.cap, q.fence)]), q.(pc := RunPublish), issued)
  {
  }

  lemma PublishCall(w: Window, q: Pub, issued: set<Text>, freshId: Text)
    requires Consistent(w) && q.pc == RunPublish
    ensures var (w', r) := PublishStep(w, q.id, q.fence, q.cap.gen, q.cap.rev, |q.cap.rows|);
            && Consistent(w')
            && PubStep(w, q, issued, freshId)
               == (w', q.(pc := if r != Published then (if q.hasDirty then Redirty else Done)
                                else if q.currentId != [] && q.currentId != q.id then ExpireRows else Done), issued)
  {
    hide PublishStep, LiveOk;
    PublishShape(w, q.id, q.fence, q.cap.gen, q.cap.rev, |q.cap.rows|);
  }

  lemma ExpireCalls(w: Window, q: Pub, issued: set<Text>, freshId: Text)
    requires Consistent(w) && q.pc == ExpireRows
    ensures var w' := w.(expiring := w.expiring + {q.currentId});
            && PubStep(w, q, issued, freshId) == (w', q.(pc := ExpireMeta), issued)
            && PubStep(w', q.(pc := ExpireMeta), issued, freshId) == (w', q.(pc := Done), issued)
  {
    var w' := w.(expiring := w.expiring + {q.currentId});
    assert w'.(expiring := w'.expiring + {q.currentId}) == w';
  }

  // ----- PublishHot ---------------------------------------------------------------------------

  lemma CaptureTextParts(c: Capture)
    ensures var t := CaptureText(c); t.gen == c.gen && t.rev == Digits(c.rev) && |t.rows| == |c.rows|
  {
    hide Digits;
  }

  /** The snapshot that was current expires once another one is published. */
  method ExpireOld(store: WindowStore, currentId: Text, freshId: Text, ghost q: Pub, ghost issued: set<Text>)
    returns (ghost p: Pub, ghost n: nat)
    requires store.Valid() && q.pc == (if currentId != [] then ExpireRows else Done) && q.currentId == currentId
    modifies store
    ensures store.Valid() && p == q.(pc := Done)
    ensures store.model == old(store.model).(expiring := old(store.model).expiring + (if currentId != [] then {currentId} else {}))
    ensures Calls(old(store.model), q, issued, freshId, n) == (store.model, p, issued)
  {
    hide Mirrors, HotMirrors, LiveOk, Calls, PubStep;
    ghost var w := store.model;
    CallsNone(w, q, issued, freshId);
    p, n := q, 0;
    if currentId != [] {
      CallThen(w, q, issued, freshId, 0, w, q, issued);
      ExpireCalls(w, q, issued, freshId);
      store.Expire(currentId);
      CallThen(w, q, issued, freshId, 1, store.model, q.(pc := ExpireMeta), issued);
      p, n := q.(pc := Done), 2;
    }
  }

  /** Takes a fence and writes the snapshot under a fresh id. */
  method Stage(store: WindowStore, c: CaptureTexts, freshId: Text, ghost q: Pub, ghost issued: set<Text>)
    returns (fence: nat, ghost p: Pub)
    requires store.Valid() && q.pc == TakeFence && c == CaptureText(q.cap) && freshId != [] && freshId !in issued
    modifies store
    ensures store.Valid() && store.model.current == old(store.model).current
    ensures p == q.(id := freshId, fence := fence, pc := RunPublish) && fence == old(store.model).pubSeq + 1
    ensures store.model == Staged(old(store.model), q.cap, freshId)
    ensures Calls(old(store.model), q, issued, freshId, 2) == (store.model, p, issued + {freshId})
  {
    hide Digits, Value, Mirrors, HotMirrors, LiveOk, Calls, PubStep, SnapshotFrom, CaptureText;
    ghost var w0 := store.model;
    CallsNone(w0, q, issued, freshId);
    CallThen(w0, q, issued, freshId, 0, w0, q, issued);
    FenceCall(w0, q, issued, freshId);
    fence := store.NextFence();
    ghost var w1, q1 := store.model, q.(id := freshId, fence := fence, pc := Pc.WriteSnapshot);
    CallThen(w0, q, issued, freshId, 1, w1, q1, issued + {freshId});
    WriteCall(w1, q1, issued + {freshId}, freshId);
    store.WriteSnapshot(freshId, c, fence, q.cap);
    p := q1.(pc := RunPublish);
  }

  /** Stages a new snapshot and publishes it; the one that was current then expires. */
  method PublishNew(store: WindowStore, c: CaptureTexts, currentId: Text, freshId: Text, ghost q: Pub,
          ghost issued: set<Text>)
    returns (status: PublishStatus, ghost p: Pub, ghost ids: set<Text>, ghost n: nat)
    requires store.Valid() && q.pc == TakeFence && c == CaptureText(q.cap) && currentId == q.currentId
    requires freshId != [] && freshId !in issued && freshId != currentId && currentId == store.hotCurrent
    modifies store
    ensures store.Valid()
    ensures status != Published <==> Newer(old(store.model), c.gen, q.cap.rev)
    ensures store.model == if status == Published then Released(old(store.model), q.cap, freshId)
                           else Staged(old(store.model), q.cap, freshId)
    ensures Calls(old(store.model), q, issued, freshId, n) == (store.model, p, ids)
    ensures p.hasDirty == q.hasDirty && p.pc == (if status != Published && q.hasDirty then Redirty else Done)
  {
    hide Digits, Value, Mirrors, HotMirrors, LiveOk, Calls, PublishStep, PubStep, CaptureText, Newer, SnapshotFrom, StoreOk, PubOk, Less;
    CaptureTextParts(q.cap);
    ghost var w0 := store.model;
    ghost var q2;
    var fence;
    fence, q2 := Stage(store, c, freshId, q, issued);
    ids := issued + {freshId};
    ghost var w2 := store.model;
    StagedVerdict(w0, q.cap, freshId);
    CallThen(w0, q, issued, freshId, 2, w2, q2, ids);
    PublishCall(w2, q2, ids, freshId);
    status := store.PublishScript(freshId, Digits(fence), c.gen, c.rev, |c.rows|, fence, q.cap.rev);
    PublishShape(w2, freshId, fence, q.cap.gen, q.cap.rev, |q.cap.rows|);
    p, n := q2.(pc := if status != Published then (if q.hasDirty then Redirty else Done)
                      else if currentId != [] then ExpireRows else Done), 3;
    if status == Published {
      ghost var q3, m := p, 0;
      p, m := ExpireOld(store, currentId, freshId, q3, ids);
      CallsAdd(w0, q, issued, freshId, 3, m);
      n := 3 + m;
    }
  }

  lemma HotCalls(w: Window, q: Pub, issued: set<Text>, freshId: Text)
    requires Consistent(w) && (q.pc == GetHot || q.pc == CheckRev || q.pc == CheckGen)
    ensures PubStep(w, q, issued, freshId) ==
            (w,
             if q.pc == GetHot then q.(currentId := w.hot, pc := if w.hot == [] then TakeFence else CheckRev)
             else if q.pc == CheckRev then
               q.(pc := if q.currentId in w.snaps && w.snaps[q.currentId].rev == q.cap.rev then CheckGen else TakeFence)
             else q.(pc := if q.currentId in w.snaps && w.snaps[q.currentId].gen == q.cap.gen then Done else TakeFence),
             issued)
  {
  }

  /** Whether the current snapshot already carries the captured label. */
  method AlreadyPublished(store: WindowStore, c: CaptureTexts, ghost q: Pub, ghost issued: set<Text>, freshId: Text)
    returns (same: bool, currentId: Text, ghost p: Pub, ghost n: nat)
    requires store.Valid() && q.pc == GetHot && c == CaptureText(q.cap)
    ensures same <==> Labelled(store.model, c.gen, q.cap.rev)
    ensures Calls(store.model, q, issued, freshId, n) == (store.model, p, issued)
    ensures currentId == store.hotCurrent == p.currentId && p == q.(currentId := currentId, pc := if same then Done else TakeFence)
  {
    hide Digits, Value, Mirrors, HotMirrors, LiveOk, Calls, RowTexts, PubStep;
    ghost var w := store.model;
    CallsNone(w, q, issued, freshId);
    CallThen(w, q, issued, freshId, 0, w, q, issued);
    HotCalls(w, q, issued, freshId);
    currentId, same := store.hotCurrent, false;
    p, n := q.(currentId := currentId, pc := if currentId == [] then TakeFence else CheckRev), 1;
    if currentId != [] {
      LabelCompared(store.hotMeta, store.hotRows, w.snaps, currentId, q.cap);
      CallThen(w, q, issued, freshId, 1, w, p, issued);
      HotCalls(w, p, issued, freshId);
      if currentId in store.hotMeta && store.hotMeta[currentId].revision == c.rev {
        p := p.(pc := CheckGen);
        CallThen(w, q, issued, freshId, 2, w, p, issued);
        HotCalls(w, p, issued, freshId);
        same := store.hotMeta[currentId].generation == c.gen;
        p, n := p.(pc := if same then Done else TakeFence), 3;
      } else {
        p, n := p.(pc := TakeFence), 2;
      }
    }
  }

  /** PublishHot from its first Redis call to its last; `failed` is a rejected publish. */
  method PublishHot(store: WindowStore, freshId: Text, ghost q: Pub, ghost issued: set<Text>)
    returns (id: Text, failed: bool, ghost p: Pub, ghost ids: set<Text>, ghost n: nat)
    requires store.Valid() && q.pc == ReadGen && freshId != [] && freshId !in issued && store.hotCurrent != freshId
    modifies store
    ensures store.Valid() && store.model == PublishedHot(old(store.model), freshId)
    ensures Calls(old(store.model), q, issued, freshId, n) == (store.model, p, ids)
    ensures p.hasDirty == q.hasDirty && p.pc == (if failed && q.hasDirty then Redirty else Done)
    ensures failed <==> Rejects(old(store.model))
    ensures id == if store.model.current == [] || failed then [] else store.model.hot
    ensures id == freshId <==> store.model.hot == freshId
  {
    hide Digits, Value, Mirrors, HotMirrors, LiveOk, Calls, PubStep, CaptureText, Labelled, Newer;
    ghost var w0 := store.model;
    ghost var m;
    var c;
    c, p, n := CaptureHot(store, q, issued, freshId);
    ids, failed, id := issued, false, [];
    if c.None? { return; }
    CaptureTextParts(p.cap);
    ghost var q1 := p;
    var same, currentId;
    same, currentId, p, m := AlreadyPublished(store, c.value, p, issued, freshId);
    CallsAdd(w0, q, issued, freshId, n, m);
    n := n + m;
    if same { return currentId, false, p, issued, n; }
    ghost var q2 := p;
    var status;
    status, p, ids, m := PublishNew(store, c.value, currentId, freshId, p, issued);
    CallsAdd(w0, q, issued, freshId, n, m);
    n := n + m;
    failed := status != Published;
    id := if failed then [] else freshId;
  }

  // ----- PublishDirtyWindows ----------------------------------------------------------------------

  lemma FlagCalls(w: Window, q: Pub, issued: set<Text>, freshId: Text)
    requires Consistent(w)
    requires q.pc == ReadDirty || q.pc == ReadHot || q.pc == ClearDirty || q.pc == Redirty
    ensures PubStep(w, q, issued, freshId) ==
            (if q.pc == ClearDirty then w.(dirty := false) else if q.pc == Redirty then w.(dirty := true) else w,
             if q.pc == ReadDirty then q.(hasDirty := w.dirty, pc := ReadHot)
             else if q.pc == ReadHot then
               q.(pc := if !q.hasDirty && w.hot != [] then Done else if q.hasDirty then ClearDirty else ReadGen)
             else q.(pc := if q.pc == ClearDirty then ReadGen else Done),
             issued)
  {
  }

  /** Whether a publication is rejected does not depend on the flag, and a window
      without a current snapshot rejects none. */
  lemma RejectsSame(w: Window)
    ensures Rejects(w.(dirty := false)) <==> Rejects(w)
    ensures w.hot == [] ==> !Rejects(w)
  {
  }

  /** What one pass over one window leaves: the window passed over, by the calls of one
      publisher that is then done. */
  ghost predicate Passed(w: Window, w': Window, freshId: Text) {
    && Consistent(w) && w' == PassedOver(w, freshId)
    && exists n, p, ids :: Calls(w, NewPub(false), {}, freshId, n) == (w', p, ids) && p.pc == Done
  }

  /** The publication, and the flag again when it was rejected after taking the flag. */
  method PublishOrRedirty(store: WindowStore, freshId: Text, hasDirty: bool, ghost q: Pub)
    returns (failed: bool, ghost p: Pub, ghost ids: set<Text>, ghost n: nat)
    requires store.Valid() && q.pc == ReadGen && q.hasDirty == hasDirty && (hasDirty ==> store.current != [])
    requires freshId != [] && store.hotCurrent != freshId
    modifies store
    ensures store.Valid() && p.pc == Done && Calls(old(store.model), q, {}, freshId, n) == (store.model, p, ids)
    ensures failed <==> Rejects(old(store.model))
    ensures store.model == if failed && hasDirty then PublishedHot(old(store.model), freshId).(dirty := true)
                           else PublishedHot(old(store.model), freshId)
  {
    hide Mirrors, HotMirrors, LiveOk, Calls, PubStep, Rejects;
    ghost var w := store.model;
    var id;
    id, failed, p, ids, n := PublishHot(store, freshId, q, {});
    if failed && hasDirty {
      CallThen(w, q, {}, freshId, n, store.model, p, ids);
      FlagCalls(store.model, p, ids, freshId);
      store.SetDirty(true);
      p, n := p.(pc := Done), n + 1;
    }
  }

  lemma PassedIs(w: Window, freshId: Text, failed: bool, after: Window)
    requires Consistent(w) && (w.dirty || w.hot == []) && (failed <==> Rejects(w))
    requires Consistent(w.(dirty := false))
    requires after == if failed && w.dirty then PublishedHot(w.(dirty := false), freshId).(dirty := true)
                      else PublishedHot(w.(dirty := false), freshId)
    ensures after == PassedOver(w, freshId)
  {
    hide Rejects, LiveCapture, LiveOk, Labelled, Newer;
    if !w.dirty { RejectsSame(w); }
  }

  lemma CleanPassed(w: Window, freshId: Text)
    requires Consistent(w) && !w.dirty && w.hot != []
    ensures PassedOver(w, freshId) == w
  {
  }

  lemma UnflaggedIs(w: Window)
    requires Consistent(w)
    ensures Consistent(w.(dirty := false)) && (!w.dirty ==> w.(dirty := false) == w)
  {
  }

  /** One window of PublishDirtyWindows: the flag is taken before the capture and put
      back when the publish is rejected. */
  method PublishDirtyWindow(store: WindowStore, freshId: Text) returns (failed: bool)
    requires store.Valid() && freshId != [] && store.hotCurrent != freshId
    modifies store
    ensures store.Valid() && Passed(old(store.model), store.model, freshId)
    ensures failed <==> Fails(old(store.model))
  {
    hide Mirrors, HotMirrors, LiveOk, Calls, PubStep, Rejects, PassedOver, PublishedHot;
    RejectsSame(store.model);
    UnflaggedIs(store.model);
    ghost var w0, q := store.model, NewPub(false);
    assert store.dirty ==> store.current != [];
    CallsNone(w0, q, {}, freshId);
    CallThen(w0, q, {}, freshId, 0, w0, q, {});
    FlagCalls(w0, q, {}, freshId);
    var hasDirty := store.dirty;
    ghost var q1 := q.(hasDirty := hasDirty, pc := ReadHot);
    CallThen(w0, q, {}, freshId, 1, w0, q1, {});
    FlagCalls(w0, q1, {}, freshId);
    var hasHot := store.hotCurrent != [];
    failed := false;
    if !hasDirty && hasHot {
      assert Calls(w0, q, {}, freshId, 2) == (w0, q1.(pc := Done), {});
      CleanPassed(w0, freshId);
      return;
    }
    ghost var q2, n := q1.(pc := if hasDirty then ClearDirty else ReadGen), 2;
    if hasDirty {
      CallThen(w0, q, {}, freshId, 2, w0, q2, {});
      FlagCalls(w0, q2, {}, freshId);
      store.SetDirty(false);
      q2, n := q2.(pc := ReadGen), 3;
    }
    ghost var p, ids, m;
    failed, p, ids, m := PublishOrRedirty(store, freshId, hasDirty, q2);
    CallsAdd(w0, q, {}, freshId, n, m);
    PassedIs(w0, freshId, failed, store.model);
    assert Calls(w0, q, {}, freshId, n + m) == (store.model, p, ids);
  }

  /** The windows of some stores, in order. */
  ghost function Models(stores: seq<WindowStore>): (m: seq<Window>)
    reads stores
    ensures |m| == |stores| && forall i :: 0 <= i < |m| ==> m[i] == stores[i].model
  {
    if stores == [] then [] else [stores[0].model] + Models(stores[1..])
  }

  /** A pass over all windows, each with a fresh id; a failure does not stop it. */
  method PublishDirtyWindows(stores: seq<WindowStore>, freshIds: seq<Text>) returns (failed: bool)
    requires |stores| == |freshIds| && forall i, j :: 0 <= i < j < |stores| ==> stores[i] != stores[j]
    requires forall i :: 0 <= i < |stores| ==> stores[i].Valid() && freshIds[i] != [] && stores[i].hotCurrent != freshIds[i]
    modifies stores
    ensures forall i :: 0 <= i < |stores| ==> stores[i].Valid() && Passed(old(Models(stores))[i], stores[i].model, freshIds[i])
    ensures failed <==> exists i :: 0 <= i < |stores| && Fails(old(Models(stores))[i])
  {
    ghost var before := Models(stores);
    hide *;
    failed := false;
    for i := 0 to |stores|
      invariant forall j :: 0 <= j < i ==> stores[j].Valid() && Passed(before[j], stores[j].model, freshIds[j])
      invariant forall j :: i <= j < |stores| ==> stores[j].Valid() && stores[j].model == before[j] && stores[j].hotCurrent != freshIds[j]
      invariant failed <==> exists j :: 0 <= j < i && Fails(before[j])
    {
      var one := PublishDirtyWindow(stores[i], freshIds[i]);
      failed := failed || one;
    }
  }
}
