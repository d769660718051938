/** Every row a run ever stores parses in Go: what Answer.Read needs of a store holds
    of every run whose boards hold no more users than Go's int counts. */
module PresentableRuns {
  import opened Bytes
  import opened Encode
  import opened Board
  import opened Window
  import opened Publish
  import opened Reads
  import opened Reader
  import opened Scripts
  import opened Answer

  /** No generation has more users, removed ones included, than Go's int counts. */
  ghost predicate Countable(w: Window) { forall g :: g in w.gens ==> |w.gens[g].board| <= MAX_INT }

  ghost predicate Fits(c: Capture) {
    c.participants <= MAX_INT && forall r :: r in c.rows ==> PresentableRow(r)
  }

  ghost function Fitting(): iset<Capture> { iset c | Fits(c) }

  // ----- boards never lose a user ---------------------------------------------

  lemma ExecKeepsUsers(s: Sys, a: Action, g: Text)
    requires Inv(s)
    ensures At(s.w, g).board.Keys <= At(Exec(s, a).w, g).board.Keys
  {
    hide PubStep, ApplyStep, PromoteStep, LiveOk, Beats, PubOk;
    match a
    case Update(h, u, e) => if h != [] && ValidUpdate(u, e) { ApplyMerges(s.w, h, u, e); }
    case Promote(h) => PromoteAdvances(s.w, h);
    case Begin(p, direct) =>
    case Step(p, freshId) => if p in s.pubs { PubStepOk(s.w, s.pubs[p], s.issued, freshId); }
  }

  lemma FewerKeys(b: Users, c: Users)
    requires b.Keys <= c.Keys
    ensures |b| <= |c|
  {
    Smaller(b.Keys, c.Keys);
    assert |b.Keys| == |b| && |c.Keys| == |c|;
  }

  lemma Smaller<T>(s: set<T>, t: set<T>)
    requires s <= t
    ensures |s| <= |t|
  {
    assert t == s + (t - s);
  }

  lemma CountableBefore(s: Sys, a: Action)
    requires Inv(s) && Countable(Exec(s, a).w)
    ensures Countable(s.w)
  {
    hide Exec, PubOk, Apart, LiveOk;
    var w' := Exec(s, a).w;
    forall g | g in s.w.gens ensures |s.w.gens[g].board| <= MAX_INT {
      ExecKeepsUsers(s, a, g);
      FewerKeys(At(s.w, g).board, At(w', g).board);
      assert g !in w'.gens ==> At(w', g).board == map[];
    }
  }

  // ----- every capture fits ---------------------------------------------------

  lemma MembersAtMost(b: Users)
    requires ValidBoard(b)
    ensures |Members(b)| <= |b|
  {
    OneMemberPerUser(b);
    Smaller((set u | u in b && b[u].Live?), b.Keys);
  }

  lemma CountableAt(w: Window, g: Text)
    requires Consistent(w) && Countable(w)
    ensures ValidBoard(At(w, g).board) && |Members(At(w, g).board)| <= MAX_INT
  {
    MembersAtMost(At(w, g).board);
  }

  /** Whatever two generations a capture script is given. */
  lemma CaptureFits(w: Window, g: Text, p: Text)
    requires Consistent(w) && Countable(w)
    ensures ValidBoard(At(w, g).board)
    ensures var c := CaptureStep(w, g, p); c.Some? ==> Fits(c.value)
  {
    CountableAt(w, g);
    CountableAt(w, p);
    BoardRowsPresentable(At(w, g).board, At(w, p).board);
  }

  lemma TakenFits(s: Sys, a: Action)
    requires Inv(s) && Countable(s.w)
    ensures TakenIn(s, a, Fitting())
  {
    hide LiveOk, CaptureStep, PubOk, Apart, Countable;
    if a.Step? && a.p in s.pubs {
      CaptureFits(s.w, s.pubs[a.p].gen, s.pubs[a.p].prev);
    }
  }

  /** In every run, steady or not, all snapshots ever stored and all captures held
      keep counts and previous ranks within Go's int and name valid users. */
  lemma {:induction false} StoredFits(acts: seq<Action>)
    requires Countable(After(acts).w)
    ensures Sourced(After(acts), Fitting())
    decreases |acts|
  {
    hide Exec, Inv, Countable, Sourced, TakenIn;
    if acts == [] {
      NothingStored(Fitting());
    } else {
      var front, a := acts[..|acts| - 1], acts[|acts| - 1];
      CountableBefore(After(front), a);
      StoredFits(front);
      TakenFits(After(front), a);
      ExecSourced(After(front), a, Fitting());
    }
  }

  lemma NothingStored(past: iset<Capture>)
    ensures Sourced(INIT, past)
  {
  }

  /** The window of every such run meets what Answer.Read asks of its store. */
  lemma RunPresentable(acts: seq<Action>)
    requires Countable(After(acts).w)
    ensures Consistent(After(acts).w) && Presentable(After(acts).w)
  {
    hide PubOk, Apart, PresentableRow;
    var w := After(acts).w;
    StoredFits(acts);
    forall g | g in w.gens ensures |Members(w.gens[g].board)| <= MAX_INT { CountableAt(w, g); }
    forall x | x in w.snaps
      ensures w.snaps[x].participants <= MAX_INT && forall r :: r in w.snaps[x].rows ==> PresentableRow(r)
    {
      assert CaptureOf(w.snaps[x]) in Fitting();
    }
  }

  /** What a read of any run is answered with, live or hot, fresh or superseded: rows
      that parse, counts that are Go ints, and a viewer's rank that is one. */
  lemma RunPagesParse(acts: seq<Action>, snapId: Text, start: int, stop: int, user: Text, cap: nat)
    requires Countable(After(acts).w)
    ensures var page := ReadStep(After(acts).w, snapId, start, stop, user, cap);
            page.Page? ==>
              && page.participants <= MAX_INT && (page.own.Own? ==> 0 < page.own.rank <= MAX_INT)
              && forall i :: 0 <= i < |page.rows| ==>
                   ParseHotRow(RowText(page.rows[i]), start + 1 + i)
                   == Ok(TextOf(Numbered(page.rows, start + 1)[i]))
  {
    hide After, ReadStep, Presentable, PresentableRow, RowText, ParseHotRow;
    RunPresentable(acts);
    PagePresentable(After(acts).w, snapId, start, stop, user, cap);
    var page := ReadStep(After(acts).w, snapId, start, stop, user, cap);
    if page.Page? {
      forall i | 0 <= i < |page.rows|
        ensures ParseHotRow(RowText(page.rows[i]), start + 1 + i) == Ok(TextOf(Numbered(page.rows, start + 1)[i]))
      {
        ParseHotRowOf(page.rows[i], start + 1 + i);
      }
    }
  }
}
