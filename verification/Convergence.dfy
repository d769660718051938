/** Out-of-order and duplicated updates converge, on every run. */
module Convergence {
  import opened Bytes
  import opened Board
  import opened Window
  import opened Publish

  type Sends = set<(Text, Entry)>

  /** The valid updates a run sends to one generation, in any order and number. */
  ghost function Sent(acts: seq<Action>, g: Text): Sends {
    if acts == [] then {}
    else Sent(acts[..|acts| - 1], g) + SentBy(acts[|acts| - 1], g)
  }

  function SentBy(a: Action, g: Text): Sends {
    if a.Update? && a.g == g && ValidUpdate(a.u, a.e) then {(a.u, a.e)} else {}
  }

  /** Upserts of one user and revision carry one payload. */
  ghost predicate OnePayload(s: Sends) {
    forall u, e, f :: (u, e) in s && (u, f) in s && e.Live? && f.Live? && e.rev == f.rev ==> e == f
  }

  /** b holds for each updated user an update that no other update beats. */
  ghost predicate IsWinner(b: Users, s: Sends) {
    && (forall u :: u in b ==> (u, b[u]) in s)
    && (forall u, e :: (u, e) in s ==> u in b && !Beats(e, b[u]))
  }

  predicate NotSuperseded(w: Window, g: Text) { w.current == [] || !Less(g, w.current) }

  lemma MergeKeepsWinner(b: Users, s: Sends, u: Text, e: Entry)
    requires IsWinner(b, s)
    ensures IsWinner(Merge(b, u, e), s + {(u, e)})
  {
    var b' := Merge(b, u, e);
    forall v, f | (v, f) in s + {(u, e)} ensures v in b' && !Beats(f, b'[v]) {
      if (v, f) in s { assert v in b && !Beats(f, b[v]); }
    }
  }

  lemma StepKeepsWinner(s: Sys, a: Action, g: Text, sent: Sends)
    requires Inv(s) && g != [] && NotSuperseded(s.w, g) && IsWinner(At(s.w, g).board, sent)
    ensures IsWinner(At(Exec(s, a).w, g).board, sent + SentBy(a, g))
  {
    hide PubStep, ApplyStep, PromoteStep, LiveOk, Beats, Merge, IsWinner, PubOk;
    assert sent + {} == sent;
    match a
    case Update(h, u, e) =>
      if h != [] && ValidUpdate(u, e) {
        ApplyMerges(s.w, h, u, e);
        MergeKeepsWinner(At(s.w, g).board, sent, u, e);
      }
    case Promote(h) => PromoteAdvances(s.w, h);
    case Begin(p, direct) =>
    case Step(p, freshId) => if p in s.pubs { PubStepOk(s.w, s.pubs[p], s.issued, freshId); }
  }

  lemma SupersededStays(w: Window, w': Window, g: Text)
    requires Advances(w, w') && NotSuperseded(w', g)
    ensures NotSuperseded(w, g)
  {
    if w.current != [] && Less(g, w.current) && Less(w.current, w'.current) {
      LessTransitive(g, w.current, w'.current);
    }
  }

  /** A generation's board is the winner of everything sent to it, as long as the
      generation has not been superseded. */
  lemma {:induction false} BoardIsWinner(acts: seq<Action>, g: Text)
    requires g != [] && NotSuperseded(After(acts).w, g)
    ensures IsWinner(At(After(acts).w, g).board, Sent(acts, g))
    decreases |acts|
  {
    hide Exec, Advances, Inv;
    if acts != [] {
      var front, a := acts[..|acts| - 1], acts[|acts| - 1];
      ExecAdvances(After(front), a);
      SupersededStays(After(front).w, After(acts).w, g);
      BoardIsWinner(front, g);
      StepKeepsWinner(After(front), a, g, Sent(front, g));
    }
  }

  lemma WinnerUnique(b: Users, c: Users, s: Sends)
    requires IsWinner(b, s) && IsWinner(c, s) && OnePayload(s)
    ensures b == c
  {
    forall u | u in b ensures u in c && b[u] == c[u] { assert (u, b[u]) in s; }
    forall u | u in c ensures u in b { assert (u, c[u]) in s; }
  }

  /** In plain words: a user's entry is one that was sent, of the highest revision sent for
      the user, and a removal exactly when a removal of that revision was sent; and every
      user an update was sent for has one. */
  lemma BoardIsLatest(acts: seq<Action>, g: Text, u: Text)
    requires g != [] && NotSuperseded(After(acts).w, g)
    ensures var (b, sent) := (At(After(acts).w, g).board, Sent(acts, g));
      && (u in b <==> exists e: Entry :: (u, e) in sent)
      && (u in b ==>
            && (u, b[u]) in sent
            && (forall e: Entry :: (u, e) in sent ==> e.rev <= b[u].rev)
            && (b[u].Gone? <==> exists e: Entry :: (u, e) in sent && e.Gone? && e.rev == b[u].rev))
  {
    hide Sent, After;
    BoardIsWinner(acts, g);
    var (b, sent) := (At(After(acts).w, g).board, Sent(acts, g));
    if u in b { assert (u, b[u]) in sent; }
    forall e: Entry | (u, e) in sent ensures u in b && e.rev <= b[u].rev && (e.Gone? && e.rev == b[u].rev ==> b[u].Gone?) {
      assert !Beats(e, b[u]);
    }
  }

  /** Two runs that send one set of updates to a generation, in any order and with
      any duplication, end with the same board of it: the same users, versions and
      sorted set. */
  lemma RunsConverge(acts: seq<Action>, acts': seq<Action>, g: Text)
    requires g != [] && Sent(acts, g) == Sent(acts', g) && OnePayload(Sent(acts, g))
    requires NotSuperseded(After(acts).w, g) && NotSuperseded(After(acts').w, g)
    ensures At(After(acts).w, g).board == At(After(acts').w, g).board
  {
    BoardIsWinner(acts, g);
    BoardIsWinner(acts', g);
    WinnerUnique(At(After(acts).w, g).board, At(After(acts').w, g).board, Sent(acts, g));
  }

  /** The revision counter moves by one exactly when its board changes. */
  lemma RevisionCountsChanges(acts: seq<Action>, a: Action, g: Text)
    ensures var w, w' := After(acts).w, After(acts + [a]).w;
            At(w', g).revision == At(w, g).revision + (if At(w', g).board == At(w, g).board then 0 else 1)
  {
    hide PubStep, PromoteStep, LiveOk, Less, PubOk;
    AfterSnoc(acts, a);
    var s := After(acts);
    match a
    case Update(h, u, e) => if h != [] && ValidUpdate(u, e) { ApplyMerges(s.w, h, u, e); }
    case Promote(h) => PromoteAdvances(s.w, h);
    case Begin(p, direct) =>
    case Step(p, freshId) => if p in s.pubs { PubStepOk(s.w, s.pubs[p], s.issued, freshId); }
  }
}
