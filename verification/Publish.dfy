/** The window under interleaved updates, promotions and publishers. A publisher
    is a program counter with the locals of PublishDirtyWindows and PublishHot;
    between two of its Redis calls anything else may happen. */
module Publish {
  import opened Bytes
  import opened Board
  import opened Window

  datatype Pc = ReadDirty | ReadHot | ClearDirty
              | ReadGen | ReadPrev | RunCapture
              | GetHot | CheckRev | CheckGen
              | TakeFence | WriteSnapshot | RunPublish
              | ExpireRows | ExpireMeta | Redirty | Done

  datatype Pub = Pub(pc: Pc, hasDirty: bool, gen: Text, prev: Text, cap: Capture,
                     currentId: Text, id: Text, fence: nat)

  datatype Sys = Sys(w: Window, pubs: map<nat, Pub>, issued: set<Text>)

  datatype Action = Update(g: Text, u: Text, e: Entry)
                  | Promote(g: Text)
                  | Begin(p: nat, direct: bool)
                  | Step(p: nat, freshId: Text)

  const INIT := Sys(EMPTY, map[], {})

  /** A worker's pass starts at the dirty flag; a direct PublishHot call at the capture. */
  function NewPub(direct: bool): Pub {
    Pub(if direct then ReadGen else ReadDirty, false, [], [], Capture([], 0, 0, []), [], [], 0)
  }

  /** One Redis call of a publisher. */
  function PubStep(w: Window, q: Pub, issued: set<Text>, freshId: Text): (Window, Pub, set<Text>)
    requires Consistent(w)
  {
    match q.pc
    case ReadDirty => (w, q.(hasDirty := w.dirty, pc := ReadHot), issued)
    case ReadHot =>
      if !q.hasDirty && w.hot != [] then (w, q.(pc := Done), issued)
      else (w, q.(pc := if q.hasDirty then ClearDirty else ReadGen), issued)
    case ClearDirty => (w.(dirty := false), q.(pc := ReadGen), issued)
    case ReadGen => (w, q.(gen := w.current, pc := if w.current == [] then Done else ReadPrev), issued)
    case ReadPrev => (w, q.(prev := w.previous, pc := RunCapture), issued)
    case RunCapture =>
      (match CaptureStep(w, q.gen, q.prev)
       case None => (w, q.(pc := Done), issued)
       case Some(c) => (w, q.(cap := c, pc := GetHot), issued))
    case GetHot => (w, q.(currentId := w.hot, pc := if w.hot == [] then TakeFence else CheckRev), issued)
    case CheckRev =>
      (w, q.(pc := if q.currentId in w.snaps && w.snaps[q.currentId].rev == q.cap.rev then CheckGen else TakeFence), issued)
    case CheckGen =>
      (w, q.(pc := if q.currentId in w.snaps && w.snaps[q.currentId].gen == q.cap.gen then Done else TakeFence), issued)
    case TakeFence =>
      if freshId == [] || freshId in issued then (w, q, issued)
      else (w.(pubSeq := w.pubSeq + 1), q.(id := freshId, fence := w.pubSeq + 1, pc := WriteSnapshot), issued + {freshId})
    case WriteSnapshot =>
      (w.(snaps := w.snaps[q.id := SnapshotOf(q)]), q.(pc := RunPublish), issued)
    case RunPublish =>
      var (w', r) := PublishStep(w, q.id, q.fence, q.cap.gen, q.cap.rev, |q.cap.rows|);
      (w', q.(pc := if r != Published then (if q.hasDirty then Redirty else Done)
                    else if q.currentId != [] && q.currentId != q.id then ExpireRows else Done), issued)
    case ExpireRows => (w.(expiring := w.expiring + {q.currentId}), q.(pc := ExpireMeta), issued)
    case ExpireMeta => (w.(expiring := w.expiring + {q.currentId}), q.(pc := Done), issued)
    case Redirty => (w.(dirty := true), q.(pc := Done), issued)
    case Done => (w, q, issued)
  }

  function SnapshotOf(q: Pub): Snapshot {
    Snapshot(q.cap.gen, q.cap.rev, q.cap.participants, q.cap.rows, q.fence)
  }

  /** Invalid updates are refused by Apply before its script runs. */
  function Exec(s: Sys, a: Action): Sys
    requires Consistent(s.w)
  {
    match a
    case Update(g, u, e) =>
      if g == [] || !ValidUpdate(u, e) then s else s.(w := ApplyStep(s.w, g, u, e).0)
    case Promote(g) => s.(w := PromoteStep(s.w, g).0)
    case Begin(p, direct) =>
      if p in s.pubs && s.pubs[p].pc != Done then s else s.(pubs := s.pubs[p := NewPub(direct)])
    case Step(p, freshId) =>
      if p !in s.pubs then s else
        var (w, q, issued) := PubStep(s.w, s.pubs[p], s.issued, freshId);
        Sys(w, s.pubs[p := q], issued)
  }

  // ----- invariant of every run -------------------------------------------

  predicate Pending(q: Pub) { q.pc == WriteSnapshot || q.pc == RunPublish }

  predicate Captured(q: Pub) {
    || q.pc == GetHot || q.pc == CheckRev || q.pc == CheckGen || q.pc == TakeFence
    || q.pc == WriteSnapshot || q.pc == RunPublish || q.pc == Redirty
  }

  predicate BeforeCapture(q: Pub) { q.pc == ReadGen || q.pc == ReadPrev || q.pc == RunCapture }

  predicate PubOk(w: Window, issued: set<Text>, q: Pub) {
    && (q.hasDirty ==> w.current != [])
    && (q.pc == ReadPrev || q.pc == RunCapture ==> q.gen != [] && AtMost(q.gen, w.current))
    && (q.pc == RunCapture && q.gen == w.current ==> q.prev == w.previous)
    && (Captured(q) ==> q.gen != [] && w.current != [])
    && (q.currentId != [] ==> q.currentId in w.snaps && w.hot != [])
    && (q.pc == CheckRev || q.pc == CheckGen ==> q.currentId != [])
    && (q.pc == CheckGen ==> w.snaps[q.currentId].rev == q.cap.rev)
    && (Pending(q) ==> q.id != [] && q.id in issued && q.id != w.hot && q.id !in w.expiring)
    && (q.pc == WriteSnapshot ==> q.id !in w.snaps)
    && (q.pc == RunPublish ==> q.id in w.snaps && w.snaps[q.id] == SnapshotOf(q))
    && (q.pc == ExpireRows || q.pc == ExpireMeta ==> q.currentId != [] && q.currentId != w.hot)
  }

  predicate StoreOk(w: Window, issued: set<Text>) {
    && Consistent(w)
    && [] !in issued && w.snaps.Keys <= issued
    && (w.hot != [] ==> w.hot in w.snaps)
    && (forall x :: x in w.expiring ==> x in w.snaps && x != w.hot)
  }

  /** Two publishers never wait to publish one id, and nobody holds a waiting id
      as the snapshot that was current. */
  predicate Apart(q: Pub, r: Pub) {
    Pending(q) ==> (Pending(r) ==> q.id != r.id) && q.id != r.currentId
  }

  ghost predicate Inv(s: Sys) {
    && StoreOk(s.w, s.issued)
    && (forall p :: p in s.pubs ==> PubOk(s.w, s.issued, s.pubs[p]))
    && (forall p, r :: p in s.pubs && r in s.pubs && p != r ==> Apart(s.pubs[p], s.pubs[r]))
    && (forall p :: p in s.pubs && Pending(s.pubs[p]) ==> s.pubs[p].id != s.pubs[p].currentId)
  }

  /** The parts of a step that the other publishers can notice. */
  predicate Undisturbed(w: Window, w': Window) {
    && (w.current != [] ==> w'.current != [])
    && AtMost(w.current, w'.current)
    && (w'.current == w.current ==> w'.previous == w.previous)
    && (forall x :: x in w.snaps ==> x in w'.snaps && w'.snaps[x] == w.snaps[x])
    && (w.hot != [] ==> w'.hot != [])
  }

  /** A publisher at rest keeps its own facts while others act on other ids. */
  lemma PubOkKept(w: Window, w': Window, issued: set<Text>, issued': set<Text>, q: Pub)
    requires PubOk(w, issued, q) && Undisturbed(w, w') && issued <= issued'
    requires Pending(q) ==> q.id != w'.hot && q.id !in w'.expiring
    requires q.pc == WriteSnapshot ==> q.id !in w'.snaps
    requires q.currentId != [] && q.currentId != w.hot ==> q.currentId != w'.hot
    ensures PubOk(w', issued', q)
  {
    if q.pc == ReadPrev || q.pc == RunCapture { AtMostTransitive(q.gen, w.current, w'.current); }
    if q.gen == w'.current && Less(w.current, w'.current) && AtMost(q.gen, w.current) {
      LessIrreflexive(w.current);
      if Less(q.gen, w.current) { LessAsymmetric(q.gen, w.current); }
    }
  }

  lemma LiveStepKeepsInv(s: Sys, w': Window)
    requires Inv(s) && Consistent(w') && Advances(s.w, w')
    requires w'.hot == s.w.hot && w'.snaps == s.w.snaps && w'.expiring == s.w.expiring
    requires s.w.current != [] ==> w'.current != []
    ensures Inv(s.(w := w'))
  {
    forall p | p in s.pubs ensures PubOk(w', s.issued, s.pubs[p]) {
      PubOkKept(s.w, w', s.issued, s.issued, s.pubs[p]);
    }
  }

  /** The mover's own facts, the store's, and what it leaves undisturbed. */
  ghost predicate StepFacts(w: Window, q: Pub, issued: set<Text>, w': Window, q': Pub, issued': set<Text>) {
    && StoreOk(w', issued') && PubOk(w', issued', q') && Undisturbed(w, w') && issued <= issued'
    && (Pending(q') ==> q'.id != q'.currentId)
    && w'.current == w.current && w'.previous == w.previous && w'.gens == w.gens
    && (w'.hot != w.hot ==> q.pc == RunPublish && w'.hot == q.id)
    && (forall x :: x in w'.snaps && x !in w.snaps ==> q.pc == WriteSnapshot && x == q.id)
    && (forall x :: x in w'.expiring && x !in w.expiring ==> x == q.currentId && x != w.hot)
    && (q'.currentId != q.currentId ==> q'.currentId == w.hot)
    && (Pending(q') ==> (Pending(q) && q'.id == q.id) || q'.id !in issued)
  }

  predicate Reads(q: Pub) {
    !(q.pc == ClearDirty || q.pc == TakeFence || Pending(q) || q.pc == ExpireRows || q.pc == ExpireMeta || q.pc == Redirty)
  }

  lemma CheckStepOk(w: Window, q: Pub, issued: set<Text>, freshId: Text)
    requires StoreOk(w, issued) && PubOk(w, issued, q) && (q.pc == CheckRev || q.pc == CheckGen)
    ensures var (w', q', issued') := PubStep(w, q, issued, freshId);
            w' == w && issued' == issued && StepFacts(w, q, issued, w', q', issued')
  {
    hide CaptureStep, PublishStep, LiveOk, SnapshotOf, Less;
  }

  lemma ReadStepOk(w: Window, q: Pub, issued: set<Text>, freshId: Text)
    requires StoreOk(w, issued) && PubOk(w, issued, q)
    requires q.pc == ReadDirty || q.pc == ReadHot || q.pc == Done
    ensures var (w', q', issued') := PubStep(w, q, issued, freshId);
            w' == w && issued' == issued && StepFacts(w, q, issued, w', q', issued')
  {
    hide CaptureStep, PublishStep, LiveOk, SnapshotOf, Less;
  }

  predicate Resolves(q: Pub) { q.pc == ReadGen || q.pc == ReadPrev || q.pc == GetHot }

  lemma ResolveStepOk(w: Window, q: Pub, issued: set<Text>, freshId: Text)
    requires StoreOk(w, issued) && PubOk(w, issued, q) && Resolves(q)
    ensures var (w', q', issued') := PubStep(w, q, issued, freshId);
            w' == w && issued' == issued && StepFacts(w, q, issued, w', q', issued')
  {
    hide CaptureStep, PublishStep, LiveOk, SnapshotOf, Less;
  }

  lemma CaptureStepOk(w: Window, q: Pub, issued: set<Text>, freshId: Text)
    requires StoreOk(w, issued) && PubOk(w, issued, q) && q.pc == RunCapture
    ensures var (w', q', issued') := PubStep(w, q, issued, freshId);
            w' == w && issued' == issued && StepFacts(w, q, issued, w', q', issued')
  {
    var c := CaptureStep(w, q.gen, q.prev);
    hide CaptureStep, PublishStep, LiveOk, Less;
    assert PubStep(w, q, issued, freshId).1 ==
      (if c.None? then q.(pc := Done) else q.(cap := c.value, pc := GetHot));
  }

  lemma FlagStepOk(w: Window, q: Pub, issued: set<Text>, freshId: Text)
    requires StoreOk(w, issued) && PubOk(w, issued, q)
    requires q.pc == ClearDirty || q.pc == Redirty
    ensures var (w', q', issued') := PubStep(w, q, issued, freshId);
            StepFacts(w, q, issued, w', q', issued')
  {
    hide CaptureStep, PublishStep, LiveOk, Less;
  }

  lemma FenceStepOk(w: Window, q: Pub, issued: set<Text>, freshId: Text)
    requires StoreOk(w, issued) && PubOk(w, issued, q) && q.pc == TakeFence
    ensures var (w', q', issued') := PubStep(w, q, issued, freshId);
            StepFacts(w, q, issued, w', q', issued')
  {
    hide CaptureStep, PublishStep, LiveOk, Less;
  }

  lemma ExpireStepOk(w: Window, q: Pub, issued: set<Text>, freshId: Text)
    requires StoreOk(w, issued) && PubOk(w, issued, q)
    requires q.pc == ExpireRows || q.pc == ExpireMeta
    ensures var (w', q', issued') := PubStep(w, q, issued, freshId);
            StepFacts(w, q, issued, w', q', issued')
  {
    var (w', q', issued') := PubStep(w, q, issued, freshId);
    assert w' == w.(expiring := w.expiring + {q.currentId}) && issued' == issued;
    assert q' == q.(pc := if q.pc == ExpireRows then ExpireMeta else Done);
    hide PubStep, LiveOk, Less, SnapshotOf;
  }

  lemma WriteStepOk(w: Window, q: Pub, issued: set<Text>, freshId: Text)
    requires StoreOk(w, issued) && PubOk(w, issued, q) && q.pc == WriteSnapshot
    requires q.id != q.currentId
    ensures var (w', q', issued') := PubStep(w, q, issued, freshId);
            StepFacts(w, q, issued, w', q', issued')
  {
    hide CaptureStep, PublishStep, LiveOk, Less;
  }

  lemma PublishShape(w: Window, id: Text, fence: nat, gen: Text, rev: nat, rowCount: nat)
    ensures var (w', r) := PublishStep(w, id, fence, gen, rev, rowCount);
            w' == (if r == Published then w.(hot := id) else w) && (r == Published ==> id in w.snaps)
  {
    hide Less;
  }

  lemma PublishStepOk(w: Window, q: Pub, issued: set<Text>, freshId: Text)
    requires StoreOk(w, issued) && PubOk(w, issued, q) && q.pc == RunPublish
    requires q.id != q.currentId
    ensures var (w', q', issued') := PubStep(w, q, issued, freshId);
            StepFacts(w, q, issued, w', q', issued')
  {
    hide PublishStep, CaptureStep, LiveOk, Less, SnapshotOf;
    PublishShape(w, q.id, q.fence, q.cap.gen, q.cap.rev, |q.cap.rows|);
  }

  lemma PubStepOk(w: Window, q: Pub, issued: set<Text>, freshId: Text)
    requires StoreOk(w, issued) && PubOk(w, issued, q)
    requires Pending(q) ==> q.id != q.currentId
    ensures var (w', q', issued') := PubStep(w, q, issued, freshId);
            StepFacts(w, q, issued, w', q', issued')
  {
    hide PubStep, StepFacts, PubOk, StoreOk;
    if q.pc == RunCapture {
      CaptureStepOk(w, q, issued, freshId);
    } else if Resolves(q) {
      ResolveStepOk(w, q, issued, freshId);
    } else if q.pc == CheckRev || q.pc == CheckGen {
      CheckStepOk(w, q, issued, freshId);
    } else if Reads(q) {
      ReadStepOk(w, q, issued, freshId);
    } else if q.pc == WriteSnapshot {
      WriteStepOk(w, q, issued, freshId);
    } else if q.pc == RunPublish {
      PublishStepOk(w, q, issued, freshId);
    } else if q.pc == ExpireRows || q.pc == ExpireMeta {
      ExpireStepOk(w, q, issued, freshId);
    } else if q.pc == TakeFence {
      FenceStepOk(w, q, issued, freshId);
    } else {
      FlagStepOk(w, q, issued, freshId);
    }
  }

  lemma BeginKeepsInv(s: Sys, p: nat, direct: bool)
    requires Inv(s)
    ensures Inv(Exec(s, Begin(p, direct)))
  {
    hide StoreOk, PubOk, Apart, NewPub;
    if !(p in s.pubs && s.pubs[p].pc != Done) {
      NewPubOk(s.w, s.issued, direct);
      forall r | r in s.pubs
        ensures Apart(s.pubs[r], NewPub(direct)) && Apart(NewPub(direct), s.pubs[r])
      {
        NewPubApart(s.w, s.issued, s.pubs[r], direct);
      }
    }
  }

  lemma NewPubOk(w: Window, issued: set<Text>, direct: bool)
    ensures PubOk(w, issued, NewPub(direct)) && !Pending(NewPub(direct))
  {
  }

  lemma NewPubApart(w: Window, issued: set<Text>, q: Pub, direct: bool)
    requires PubOk(w, issued, q)
    ensures Apart(q, NewPub(direct)) && Apart(NewPub(direct), q)
  {
  }

  lemma UpdateKeepsInv(s: Sys, g: Text, u: Text, e: Entry)
    requires Inv(s)
    ensures Inv(Exec(s, Update(g, u, e)))
  {
    if g != [] && ValidUpdate(u, e) {
      ApplyAdvances(s.w, g, u, e);
      hide ApplyStep, PubOk, Apart;
      LiveStepKeepsInv(s, ApplyStep(s.w, g, u, e).0);
    }
  }

  lemma PromoteKeepsInv(s: Sys, g: Text)
    requires Inv(s)
    ensures Inv(Exec(s, Promote(g)))
  {
    PromoteAdvances(s.w, g);
    hide PromoteStep, PubOk, Apart;
    LiveStepKeepsInv(s, PromoteStep(s.w, g).0);
  }

  lemma ExecKeepsInv(s: Sys, a: Action)
    requires Inv(s)
    ensures Inv(Exec(s, a))
  {
    hide Exec, PubOk, Apart;
    match a
    case Update(g, u, e) => UpdateKeepsInv(s, g, u, e);
    case Promote(g) => PromoteKeepsInv(s, g);
    case Begin(p, direct) => BeginKeepsInv(s, p, direct);
    case Step(p, freshId) => PubStepKeepsInv(s, p, freshId);
  }

  lemma PubStepKeepsInv(s: Sys, p: nat, freshId: Text)
    requires Inv(s)
    ensures Inv(Exec(s, Step(p, freshId)))
  {
    if p in s.pubs { MoverKeepsInv(s, p, freshId); }
  }

  lemma OtherKeeps(w: Window, issued: set<Text>, q: Pub, w': Window, q': Pub, issued': set<Text>, o: Pub)
    requires StoreOk(w, issued) && PubOk(w, issued, q) && PubOk(w, issued, o) && Apart(q, o) && Apart(o, q)
    requires StepFacts(w, q, issued, w', q', issued')
    ensures PubOk(w', issued', o) && Apart(q', o) && Apart(o, q')
  {
    hide LiveOk;
    PubOkKept(w, w', issued, issued', o);
  }

  lemma MoverKeepsInv(s: Sys, p: nat, freshId: Text)
    requires Inv(s) && p in s.pubs
    ensures Inv(Exec(s, Step(p, freshId)))
  {
    var q := s.pubs[p];
    var (w', q', issued') := PubStep(s.w, q, s.issued, freshId);
    var s' := Exec(s, Step(p, freshId));
    PubStepOk(s.w, q, s.issued, freshId);
    assert StoreOk(w', issued') && PubOk(w', issued', q') && (Pending(q') ==> q'.id != q'.currentId);
    hide PubStep, LiveOk, StepFacts, PubOk, Apart;
    forall r | r in s'.pubs && r != p
      ensures PubOk(w', issued', s'.pubs[r]) && Apart(q', s'.pubs[r]) && Apart(s'.pubs[r], q')
    {
      OtherKeeps(s.w, s.issued, q, w', q', issued', s.pubs[r]);
    }
  }

  // ----- runs -------------------------------------------------------------

  ghost function After(acts: seq<Action>): (s: Sys)
    ensures Inv(s)
  {
    if acts == [] then INIT
    else
      var s := After(acts[..|acts| - 1]);
      ExecKeepsInv(s, acts[|acts| - 1]);
      Exec(s, acts[|acts| - 1])
  }

  lemma AfterSnoc(acts: seq<Action>, a: Action)
    ensures After(acts + [a]) == Exec(After(acts), a)
  {
    assert (acts + [a])[..|acts|] == acts;
  }

  lemma ExecAdvances(s: Sys, a: Action)
    requires Inv(s)
    ensures Advances(s.w, Exec(s, a).w)
  {
    match a
    case Update(g, u, e) => if g != [] && ValidUpdate(u, e) { ApplyAdvances(s.w, g, u, e); }
    case Promote(g) => PromoteAdvances(s.w, g);
    case Begin(p, direct) =>
    case Step(p, freshId) => if p in s.pubs { PubStepOk(s.w, s.pubs[p], s.issued, freshId); }
  }

  /** Along any run generations only move up, superseded ones are frozen, and a
      board is determined by its generation and revision. */
  lemma {:induction false} RunAdvances(acts: seq<Action>, j: nat)
    requires j <= |acts|
    ensures Advances(After(acts[..j]).w, After(acts).w)
    decreases |acts|
  {
    if j == |acts| {
      assert acts[..j] == acts;
    } else {
      var front := acts[..|acts| - 1];
      assert front[..j] == acts[..j];
      RunAdvances(front, j);
      ExecAdvances(After(front), acts[|acts| - 1]);
      AdvancesTransitive(After(acts[..j]).w, After(front).w, After(acts).w);
    }
  }
}
