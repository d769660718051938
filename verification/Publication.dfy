/** What racing publishers guarantee about the hot snapshot: publication is
    monotone, never expires the current snapshot, and loses no update. */
module Publication {
  import opened Bytes
  import opened Decimal
  import opened Board
  import opened Window
  import opened Publish

  // ----- monotone publication ---------------------------------------------

  /** (generation, revision) order of labels. */
  predicate LabelLe(g: Text, r: nat, g': Text, r': nat) { Less(g, g') || (g == g' && r <= r') }

  predicate SnapLe(a: Snapshot, b: Snapshot) { LabelLe(a.gen, a.rev, b.gen, b.rev) }

  lemma LabelLeTransitive(g1: Text, r1: nat, g2: Text, r2: nat, g3: Text, r3: nat)
    requires LabelLe(g1, r1, g2, r2) && LabelLe(g2, r2, g3, r3)
    ensures LabelLe(g1, r1, g3, r3)
  {
    if Less(g1, g2) && Less(g2, g3) { LessTransitive(g1, g2, g3); }
  }

  lemma LabelLeAntisymmetric(g1: Text, r1: nat, g2: Text, r2: nat)
    requires LabelLe(g1, r1, g2, r2) && LabelLe(g2, r2, g1, r1)
    ensures g1 == g2 && r1 == r2
  {
    if Less(g1, g2) { LessAsymmetric(g1, g2); }
    if Less(g2, g1) { LessAsymmetric(g2, g1); }
  }

  /** The published snapshot of w' is not older than that of w, by label and by fence. */
  ghost predicate PublishedLe(w: Window, w': Window) {
    w.hot != [] && w.hot in w.snaps ==>
      && w'.hot != [] && w'.hot in w'.snaps
      && SnapLe(w.snaps[w.hot], w'.snaps[w'.hot])
      && w.snaps[w.hot].fence <= w'.snaps[w'.hot].fence
  }

  lemma ExecPublishes(s: Sys, a: Action)
    requires Inv(s)
    ensures PublishedLe(s.w, Exec(s, a).w)
    ensures s.w.expiring <= Exec(s, a).w.expiring
    ensures s.w.hot in s.w.snaps ==>
              s.w.hot in Exec(s, a).w.snaps && Exec(s, a).w.snaps[s.w.hot] == s.w.snaps[s.w.hot]
  {
    hide PubStep, ApplyStep, PromoteStep, LiveOk;
    match a
    case Update(g, u, e) => if g != [] && ValidUpdate(u, e) { ApplyAdvances(s.w, g, u, e); }
    case Promote(g) => PromoteAdvances(s.w, g);
    case Begin(p, direct) =>
    case Step(p, freshId) => if p in s.pubs { PubStepPublishes(s.w, s.pubs[p], s.issued, freshId); }
  }

  lemma PubStepPublishes(w: Window, q: Pub, issued: set<Text>, freshId: Text)
    requires StoreOk(w, issued) && PubOk(w, issued, q) && (Pending(q) ==> q.id != q.currentId)
    ensures var w' := PubStep(w, q, issued, freshId).0;
            PublishedLe(w, w') && w.expiring <= w'.expiring
            && (w.hot in w.snaps ==> w.hot in w'.snaps && w'.snaps[w.hot] == w.snaps[w.hot])
  {
    if q.pc == RunPublish {
      ScriptPublishes(w, q.id, q.fence, q.cap.gen, q.cap.rev, |q.cap.rows|);
      hide PublishStep, LiveOk, PublishedLe;
    } else {
      OthersPublishNothing(w, q, issued, freshId);
      hide PubStep, LiveOk, PubOk, Less;
    }
  }

  lemma OthersPublishNothing(w: Window, q: Pub, issued: set<Text>, freshId: Text)
    requires StoreOk(w, issued) && PubOk(w, issued, q) && q.pc != RunPublish
    ensures var w' := PubStep(w, q, issued, freshId).0;
            w'.hot == w.hot && w.expiring <= w'.expiring
            && (forall x :: x in w.snaps ==> x in w'.snaps && w'.snaps[x] == w.snaps[x])
  {
    PubStepOk(w, q, issued, freshId);
    if q.pc == ExpireRows || q.pc == ExpireMeta {
      hide LiveOk, PubOk, Less;
    } else {
      hide CaptureStep, PublishStep, LiveOk, Less, SnapshotOf, StepFacts;
    }
  }

  /** The publish script only ever replaces the current snapshot by one whose label
      and fence are not older. */
  lemma ScriptPublishes(w: Window, id: Text, fence: nat, gen: Text, rev: nat, n: nat)
    requires id in w.snaps && w.snaps[id].gen == gen && w.snaps[id].rev == rev && w.snaps[id].fence == fence
    requires id != []
    ensures var w' := PublishStep(w, id, fence, gen, rev, n).0;
            PublishedLe(w, w') && w'.snaps == w.snaps && w'.expiring == w.expiring
  {
    if w.hot in w.snaps { LessTotal(w.snaps[w.hot].gen, gen); }
  }

  /** Along any run the published generation never decreases, the revision never
      decreases within a generation, and the fence never decreases. */
  lemma {:induction false} PublicationMonotone(acts: seq<Action>, j: nat)
    requires j <= |acts|
    ensures PublishedLe(After(acts[..j]).w, After(acts).w)
    decreases |acts|
  {
    if j == |acts| {
      assert acts[..j] == acts;
    } else {
      var front := acts[..|acts| - 1];
      assert front[..j] == acts[..j];
      PublicationMonotone(front, j);
      ExecPublishes(After(front), acts[|acts| - 1]);
      var a, b, c := After(acts[..j]).w, After(front).w, After(acts).w;
      if a.hot != [] && a.hot in a.snaps {
        var x, y, z := a.snaps[a.hot], b.snaps[b.hot], c.snaps[c.hot];
        LabelLeTransitive(x.gen, x.rev, y.gen, y.rev, z.gen, z.rev);
      }
    }
  }

  lemma {:induction false} ExpiringGrows(acts: seq<Action>, j: nat)
    requires j <= |acts|
    ensures After(acts[..j]).w.expiring <= After(acts).w.expiring
    decreases |acts|
  {
    if j == |acts| {
      assert acts[..j] == acts;
    } else {
      var front := acts[..|acts| - 1];
      assert front[..j] == acts[..j];
      ExpiringGrows(front, j);
      ExecPublishes(After(front), acts[|acts| - 1]);
    }
  }

  /** A snapshot that a publisher schedules for expiry is not current then and
      never becomes current later. */
  lemma CurrentNeverExpires(acts: seq<Action>, j: nat, x: Text)
    requires j <= |acts| && x in After(acts[..j]).w.expiring
    ensures x != After(acts).w.hot
  {
    ExpiringGrows(acts, j);
  }

  // ----- steady and level runs ------------------------------------------------------

  /** Every capture script runs while the generation its caller resolved is still
      current. The previous generation is then still current too (PubOk). */
  ghost predicate Steady(acts: seq<Action>) {
    acts == [] ||
    (Steady(acts[..|acts| - 1]) && SteadyAction(After(acts[..|acts| - 1]), acts[|acts| - 1]))
  }

  predicate SteadyAction(s: Sys, a: Action) {
    a.Step? && a.p in s.pubs && s.pubs[a.p].pc == RunCapture ==> s.pubs[a.p].gen == s.w.current
  }

  /** Every capture script runs while the revision of the generation its caller
      resolved is not above the live one, so no capture claims more than is live. */
  ghost predicate Level(acts: seq<Action>) {
    acts == [] ||
    (Level(acts[..|acts| - 1]) && LevelAction(After(acts[..|acts| - 1]), acts[|acts| - 1]))
  }

  predicate LevelAction(s: Sys, a: Action) {
    a.Step? && a.p in s.pubs && s.pubs[a.p].pc == RunCapture ==> CaptureIsLevel(s.w, s.pubs[a.p])
  }

  predicate CaptureIsLevel(w: Window, q: Pub) { At(w, q.gen).revision <= LiveRev(w) }

  lemma {:induction false} SteadyIsLevel(acts: seq<Action>)
    requires Steady(acts)
    ensures Level(acts)
  {
    if acts != [] { SteadyIsLevel(acts[..|acts| - 1]); }
  }

  predicate UpToDate(w: Window) {
    w.hot != [] && w.hot in w.snaps && w.snaps[w.hot].gen == w.current && w.snaps[w.hot].rev == LiveRev(w)
  }

  /** A publisher that took the dirty flag and will still publish the live state,
      publish something newer, or put the flag back: it has yet to resolve the
      generation, has resolved the current one, or holds a capture of the live label. */
  predicate Owes(w: Window, q: Pub) {
    q.hasDirty &&
    (|| q.pc == ReadGen
     || ((q.pc == ReadPrev || q.pc == RunCapture) && q.gen == w.current)
     || (Captured(q) && q.cap.gen == w.current && q.cap.rev == LiveRev(w)))
  }

  ghost predicate NothingLost(s: Sys) {
    s.w.current != [] ==>
      UpToDate(s.w) || s.w.dirty || exists p :: p in s.pubs && Owes(s.w, s.pubs[p])
  }

  predicate PubLabels(w: Window, q: Pub) {
    && (Captured(q) ==> LabelLe(q.cap.gen, q.cap.rev, w.current, LiveRev(w)))
    && (q.currentId != [] && q.currentId in w.snaps && w.hot in w.snaps ==>
          SnapLe(w.snaps[q.currentId], w.snaps[w.hot]))
    && (q.pc == ClearDirty ==> q.hasDirty)
  }

  ghost predicate Labels(s: Sys) {
    && (forall x :: x in s.w.snaps ==> LabelLe(s.w.snaps[x].gen, s.w.snaps[x].rev, s.w.current, LiveRev(s.w)))
    && (forall p :: p in s.pubs ==> PubLabels(s.w, s.pubs[p]))
  }

  lemma LiveLabelGrows(w: Window, w': Window, g: Text, r: nat)
    requires Advances(w, w') && LabelLe(g, r, w.current, LiveRev(w))
    ensures LabelLe(g, r, w'.current, LiveRev(w'))
  {
    if w'.current != w.current {
      LabelLeTransitive(g, r, w.current, LiveRev(w), w'.current, LiveRev(w'));
    } else {
      assert At(w, w.current).revision <= At(w', w.current).revision;
    }
  }

  lemma LiveStepKeepsLabels(s: Sys, w': Window)
    requires Labels(s) && Advances(s.w, w') && w'.hot == s.w.hot && w'.snaps == s.w.snaps
    ensures Labels(s.(w := w'))
  {
    forall x | x in w'.snaps ensures LabelLe(w'.snaps[x].gen, w'.snaps[x].rev, w'.current, LiveRev(w')) {
      LiveLabelGrows(s.w, w', s.w.snaps[x].gen, s.w.snaps[x].rev);
    }
    forall p | p in s.pubs ensures PubLabels(w', s.pubs[p]) {
      assert PubLabels(s.w, s.pubs[p]);
      if Captured(s.pubs[p]) { LiveLabelGrows(s.w, w', s.pubs[p].cap.gen, s.pubs[p].cap.rev); }
    }
  }

  lemma PublishStepLabels(w: Window, q: Pub, issued: set<Text>, freshId: Text)
    requires StoreOk(w, issued) && PubOk(w, issued, q) && q.id != q.currentId
    requires PubLabels(w, q) && q.pc == RunPublish
    ensures PubLabels(PubStep(w, q, issued, freshId).0, PubStep(w, q, issued, freshId).1)
  {
    PubStepPublishes(w, q, issued, freshId);
    var (w', q', issued') := PubStep(w, q, issued, freshId);
    assert w'.snaps == w.snaps && q'.currentId == q.currentId && q'.cap == q.cap && q'.pc != ClearDirty;
    assert Captured(q) && w'.current == w.current && w'.gens == w.gens;
    hide PubStep, LiveOk;
    if q.currentId != [] {
      var a, b, c := w.snaps[q.currentId], w.snaps[w.hot], w'.snaps[w'.hot];
      LabelLeTransitive(a.gen, a.rev, b.gen, b.rev, c.gen, c.rev);
    }
  }

  lemma PubStepLabels(w: Window, q: Pub, issued: set<Text>, freshId: Text)
    requires StoreOk(w, issued) && PubOk(w, issued, q) && (Pending(q) ==> q.id != q.currentId)
    requires PubLabels(w, q) && (q.pc == RunCapture ==> CaptureIsLevel(w, q))
    ensures PubLabels(PubStep(w, q, issued, freshId).0, PubStep(w, q, issued, freshId).1)
  {
    if q.pc == RunPublish {
      PublishStepLabels(w, q, issued, freshId);
    } else if q.pc == WriteSnapshot {
      hide LiveOk, LabelLe;
    } else if q.pc == RunCapture {
      CaptureLabels(w, q, issued, freshId);
    } else {
      OtherStepLabels(w, q, issued, freshId);
    }
  }

  lemma OtherStepLabels(w: Window, q: Pub, issued: set<Text>, freshId: Text)
    requires StoreOk(w, issued) && PubOk(w, issued, q) && PubLabels(w, q)
    requires !Pending(q) && q.pc != RunCapture
    ensures PubLabels(PubStep(w, q, issued, freshId).0, PubStep(w, q, issued, freshId).1)
  {
    hide CaptureStep, PublishStep, LiveOk, SnapshotOf, Less;
  }

  lemma CaptureLabels(w: Window, q: Pub, issued: set<Text>, freshId: Text)
    requires StoreOk(w, issued) && PubOk(w, issued, q) && q.pc == RunCapture && CaptureIsLevel(w, q)
    requires PubLabels(w, q)
    ensures PubLabels(PubStep(w, q, issued, freshId).0, PubStep(w, q, issued, freshId).1)
  {
    var c := CaptureStep(w, q.gen, q.prev);
    assert c.Some? ==> c.value.gen == w.current && c.value.rev == At(w, q.gen).revision;
    hide CaptureStep, LiveOk;
  }

  lemma OtherPubLabels(w: Window, w': Window, issued: set<Text>, o: Pub)
    requires PubOk(w, issued, o) && PubLabels(w, o) && Undisturbed(w, w') && PublishedLe(w, w')
    requires w.hot != [] ==> w.hot in w.snaps
    requires w'.current == w.current && w'.gens == w.gens
    ensures PubLabels(w', o)
  {
    if o.currentId != [] && w'.hot in w'.snaps {
      var a, b, c := w.snaps[o.currentId], w.snaps[w.hot], w'.snaps[w'.hot];
      LabelLeTransitive(a.gen, a.rev, b.gen, b.rev, c.gen, c.rev);
    }
  }

  ghost predicate SnapLabels(w: Window) {
    forall x :: x in w.snaps ==> LabelLe(w.snaps[x].gen, w.snaps[x].rev, w.current, LiveRev(w))
  }

  lemma MoverSnapLabels(w: Window, q: Pub, issued: set<Text>, freshId: Text)
    requires StoreOk(w, issued) && PubOk(w, issued, q) && (Pending(q) ==> q.id != q.currentId)
    requires PubLabels(w, q) && SnapLabels(w)
    ensures SnapLabels(PubStep(w, q, issued, freshId).0)
  {
    PubStepOk(w, q, issued, freshId);
    WrittenLabels(w, q, issued, freshId);
    var w' := PubStep(w, q, issued, freshId).0;
    assert w'.current == w.current && LiveRev(w') == LiveRev(w);
    hide PubStep, LiveOk, PubOk, StoreOk, LabelLe, LiveRev;
  }

  lemma PubStepKeepsLabels(s: Sys, p: nat, freshId: Text)
    requires Inv(s) && Labels(s) && LevelAction(s, Step(p, freshId)) && p in s.pubs
    ensures Labels(Exec(s, Step(p, freshId)))
  {
    hide PubStep, LiveOk, PubOk, PublishedLe, PubLabels, Undisturbed, LabelLe, PublishStep, CaptureStep;
    var q := s.pubs[p];
    var (w', q', issued') := PubStep(s.w, q, s.issued, freshId);
    assert q.pc == RunCapture ==> CaptureIsLevel(s.w, q);
    PubStepOk(s.w, q, s.issued, freshId);
    PubStepPublishes(s.w, q, s.issued, freshId);
    PubStepLabels(s.w, q, s.issued, freshId);
    MoverSnapLabels(s.w, q, s.issued, freshId);
    forall o | o in s.pubs && o != p ensures PubLabels(w', s.pubs[o]) {
      OtherPubLabels(s.w, w', s.issued, s.pubs[o]);
    }
  }

  lemma WrittenLabels(w: Window, q: Pub, issued: set<Text>, freshId: Text)
    requires StoreOk(w, issued) && PubOk(w, issued, q) && PubLabels(w, q)
    ensures var w' := PubStep(w, q, issued, freshId).0;
            w'.snaps == w.snaps || (w'.snaps == w.snaps[q.id := SnapshotOf(q)] && Captured(q))
  {
    hide CaptureStep, LiveOk, SnapshotOf, Less;
  }

  lemma ExecKeepsLabels(s: Sys, a: Action)
    requires Inv(s) && Labels(s) && LevelAction(s, a)
    ensures Labels(Exec(s, a))
  {
    match a
    case Update(g, u, e) =>
      if g != [] && ValidUpdate(u, e) {
        ApplyAdvances(s.w, g, u, e);
        hide ApplyStep, LiveOk, PubOk, Apart, PubLabels;
        LiveStepKeepsLabels(s, ApplyStep(s.w, g, u, e).0);
      }
    case Promote(g) =>
      PromoteAdvances(s.w, g);
      hide PromoteStep, LiveOk, PubOk, Apart, PubLabels;
      LiveStepKeepsLabels(s, PromoteStep(s.w, g).0);
    case Begin(p, direct) => hide LiveOk, PubOk, Apart, Less;
    case Step(p, freshId) => hide PubStep, LiveOk; if p in s.pubs { PubStepKeepsLabels(s, p, freshId); }
  }

  lemma {:induction false} LevelLabels(acts: seq<Action>)
    requires Level(acts)
    ensures Labels(After(acts))
    decreases |acts|
  {
    if acts != [] {
      LevelLabels(acts[..|acts| - 1]);
      ExecKeepsLabels(After(acts[..|acts| - 1]), acts[|acts| - 1]);
    }
  }

  // ----- no lost publication ----------------------------------------------

  lemma SteadyCapture(w: Window, q: Pub, issued: set<Text>)
    requires StoreOk(w, issued) && PubOk(w, issued, q) && q.pc == RunCapture && q.gen == w.current
    ensures w.current != [] && CaptureStep(w, q.gen, q.prev) == Some(LiveCapture(w))
  {
  }

  /** The mover settles its debt, keeps it, or puts the flag back. */
  lemma MoverSettles(w: Window, q: Pub, issued: set<Text>, freshId: Text)
    requires StoreOk(w, issued) && PubOk(w, issued, q) && (Pending(q) ==> q.id != q.currentId)
    requires PubLabels(w, q)
    requires w.hot in w.snaps ==> LabelLe(w.snaps[w.hot].gen, w.snaps[w.hot].rev, w.current, LiveRev(w))
    requires Owes(w, q)
    ensures var (w', q', issued') := PubStep(w, q, issued, freshId);
            UpToDate(w') || w'.dirty || Owes(w', q')
  {
    hide PubStep, PubOk, PubLabels, UpToDate, Owes, LiveOk, Less;
    if q.pc == RunCapture {
      CaptureSettles(w, q, issued, freshId);
    } else if q.pc == CheckGen {
      CheckSettles(w, q, issued, freshId);
    } else if q.pc == RunPublish {
      PublishSettles(w, q, issued, freshId);
    } else {
      OthersSettle(w, q, issued, freshId);
    }
  }

  lemma CaptureSettles(w: Window, q: Pub, issued: set<Text>, freshId: Text)
    requires StoreOk(w, issued) && PubOk(w, issued, q) && q.pc == RunCapture && Owes(w, q)
    ensures PubStep(w, q, issued, freshId).0 == w && Owes(w, PubStep(w, q, issued, freshId).1)
  {
    hide CaptureStep, LiveOk, Less;
    SteadyCapture(w, q, issued);
  }

  lemma CheckSettles(w: Window, q: Pub, issued: set<Text>, freshId: Text)
    requires StoreOk(w, issued) && PubOk(w, issued, q) && PubLabels(w, q) && q.pc == CheckGen && Owes(w, q)
    requires w.hot in w.snaps ==> LabelLe(w.snaps[w.hot].gen, w.snaps[w.hot].rev, w.current, LiveRev(w))
    ensures var (w', q', issued') := PubStep(w, q, issued, freshId); UpToDate(w') || Owes(w', q')
  {
    hide LiveOk, Less;
    if w.snaps[q.currentId].gen == q.cap.gen {
      var a, h := w.snaps[q.currentId], w.snaps[w.hot];
      LabelLeAntisymmetric(a.gen, a.rev, h.gen, h.rev);
    }
  }

  lemma PublishSettles(w: Window, q: Pub, issued: set<Text>, freshId: Text)
    requires StoreOk(w, issued) && PubOk(w, issued, q) && q.pc == RunPublish && Owes(w, q)
    ensures var (w', q', issued') := PubStep(w, q, issued, freshId); UpToDate(w') || Owes(w', q')
  {
    hide PublishStep, LiveOk, Less;
    PublishShape(w, q.id, q.fence, q.cap.gen, q.cap.rev, |q.cap.rows|);
  }

  lemma OthersSettle(w: Window, q: Pub, issued: set<Text>, freshId: Text)
    requires StoreOk(w, issued) && PubOk(w, issued, q) && Owes(w, q)
    requires q.pc != RunCapture && q.pc != CheckGen && q.pc != RunPublish
    ensures var (w', q', issued') := PubStep(w, q, issued, freshId); w'.dirty || Owes(w', q')
  {
    hide LiveOk, Less, SnapshotOf;
  }

  /** Replacing an up-to-date snapshot can only republish the same label. */
  lemma RepublishIsEqual(w: Window, q: Pub, issued: set<Text>, freshId: Text)
    requires StoreOk(w, issued) && PubOk(w, issued, q) && (Pending(q) ==> q.id != q.currentId)
    requires PubLabels(w, q) && UpToDate(w)
    ensures UpToDate(PubStep(w, q, issued, freshId).0)
  {
    PubStepOk(w, q, issued, freshId);
    PubStepPublishes(w, q, issued, freshId);
    var w' := PubStep(w, q, issued, freshId).0;
    hide PubStep, LiveOk;
    if w'.hot != w.hot {
      LabelLeAntisymmetric(w.snaps[w.hot].gen, w.snaps[w.hot].rev, q.cap.gen, q.cap.rev);
    }
  }

  /** Only the clearing publisher drops the flag, and it then owes a publication. */
  lemma FlagTaken(w: Window, q: Pub, issued: set<Text>, freshId: Text)
    requires Consistent(w) && PubLabels(w, q) && w.dirty
    ensures var (w', q', issued') := PubStep(w, q, issued, freshId); w'.dirty || Owes(w', q')
  {
    if q.pc == RunPublish {
      var r := PublishStep(w, q.id, q.fence, q.cap.gen, q.cap.rev, |q.cap.rows|);
      assert r.0.dirty;
    }
  }

  lemma PubStepLosesNothing(s: Sys, p: nat, freshId: Text)
    requires Inv(s) && Labels(s) && LevelAction(s, Step(p, freshId)) && NothingLost(s) && p in s.pubs
    ensures NothingLost(Exec(s, Step(p, freshId)))
  {
    hide PubStep, LiveOk, PubOk, Undisturbed, PubLabels, LabelLe, PublishStep, CaptureStep;
    var q := s.pubs[p];
    var s' := Exec(s, Step(p, freshId));
    PubStepOk(s.w, q, s.issued, freshId);
    if s.w.current != [] {
      if UpToDate(s.w) {
        RepublishIsEqual(s.w, q, s.issued, freshId);
      } else if s.w.dirty {
        FlagTaken(s.w, q, s.issued, freshId);
        assert p in s'.pubs;
      } else {
        var o :| o in s.pubs && Owes(s.w, s.pubs[o]);
        if o == p {
          MoverSettles(s.w, q, s.issued, freshId);
          assert p in s'.pubs;
        } else {
          assert o in s'.pubs && Owes(s'.w, s'.pubs[o]);
        }
      }
    }
  }

  lemma LiveStepLosesNothing(s: Sys, w': Window)
    requires NothingLost(s) && Consistent(s.w) && Advances(s.w, w') && w'.hot == s.w.hot && w'.snaps == s.w.snaps
    requires (w'.current, LiveRev(w')) != (s.w.current, LiveRev(s.w)) ==> w'.dirty
    requires s.w.dirty ==> w'.dirty
    ensures NothingLost(s.(w := w'))
  {
    if (w'.current, LiveRev(w')) == (s.w.current, LiveRev(s.w)) && w'.current != [] {
      if !UpToDate(s.w) && !s.w.dirty {
        var o :| o in s.pubs && Owes(s.w, s.pubs[o]);
        assert Owes(w', s.pubs[o]);
      }
    }
  }

  lemma BeginLosesNothing(s: Sys, p: nat, direct: bool)
    requires Inv(s) && NothingLost(s)
    ensures NothingLost(Exec(s, Begin(p, direct)))
  {
    hide LiveOk, PubOk, Apart, UpToDate;
    var s' := Exec(s, Begin(p, direct));
    if s.w.current != [] && !UpToDate(s.w) && !s.w.dirty {
      var o :| o in s.pubs && Owes(s.w, s.pubs[o]);
      assert o in s'.pubs && s'.pubs[o] == s.pubs[o];
    }
  }

  lemma ExecLosesNothing(s: Sys, a: Action)
    requires Inv(s) && Labels(s) && LevelAction(s, a) && NothingLost(s)
    ensures NothingLost(Exec(s, a))
  {
    match a
    case Update(g, u, e) =>
      if g != [] && ValidUpdate(u, e) {
        ApplyAdvances(s.w, g, u, e);
        hide ApplyStep, LiveOk, PubOk, Apart, NothingLost, Labels;
        LiveStepLosesNothing(s, ApplyStep(s.w, g, u, e).0);
      }
    case Promote(g) =>
      PromoteAdvances(s.w, g);
      hide PromoteStep, LiveOk, PubOk, Apart, NothingLost, Labels;
      LiveStepLosesNothing(s, PromoteStep(s.w, g).0);
    case Begin(p, direct) => hide NothingLost, LiveOk; BeginLosesNothing(s, p, direct);
    case Step(p, freshId) => hide NothingLost, PubStep, LiveOk; if p in s.pubs { PubStepLosesNothing(s, p, freshId); }
  }

  /** No lost publication: in every state of every level run, whenever the hot
      snapshot's label differs from the live board's, the dirty flag is set or a
      publisher that took it has not yet captured or has captured the live state. */
  lemma {:induction false} NoLostPublication(acts: seq<Action>)
    requires Level(acts)
    ensures NothingLost(After(acts))
    decreases |acts|
  {
    if acts != [] {
      var front := acts[..|acts| - 1];
      NoLostPublication(front);
      LevelLabels(front);
      ExecLosesNothing(After(front), acts[|acts| - 1]);
    }
  }

  /** At rest, with no publisher under way and the flag clear, what is published
      carries exactly the live label. */
  lemma QuietMeansPublished(acts: seq<Action>)
    requires Level(acts) && After(acts).w.current != [] && !After(acts).w.dirty
    requires forall p :: p in After(acts).pubs ==> After(acts).pubs[p].pc == Done
    ensures UpToDate(After(acts).w)
  {
    NoLostPublication(acts);
    NobodyOwes(After(acts));
  }

  lemma NobodyOwes(s: Sys)
    requires NothingLost(s) && s.w.current != [] && !s.w.dirty
    requires forall p :: p in s.pubs ==> s.pubs[p].pc == Done
    ensures UpToDate(s.w)
  {
    forall o | o in s.pubs ensures !Owes(s.w, s.pubs[o]) {
      assert s.pubs[o].pc == Done;
    }
  }
}
