/** The exact condition of crash safety: recorded progress always matches the
    uninterrupted run if and only if every statement is repeatable where it runs. */
module MigrateExact {
  import opened Splitter
  import opened Migrate

  /** When a statement is about to be recorded, the schema is that of the
      uninterrupted run after it. */
  ghost predicate ProgressTrue<S(!new)>(e: Server<S>, migs: seq<Migration>, s0: S, st: State<S>) {
    match st.pc
    case Ran(i, n) => i < |migs| && n < |Stmts(migs[i])| && st.db.schema == Point(e, migs, i, n + 1, s0)
    case _ => true
  }

  /** The preflight passes wherever an uninterrupted run meets it. */
  ghost predicate BaselinePasses<S(!new)>(e: Server<S>, migs: seq<Migration>, s0: S) {
    forall i :: 0 <= i < |migs| && migs[i].version == "0002" ==> e.baseline(Base(e, migs, i, s0))
  }

  function RowsBefore(migs: seq<Migration>, i: nat): map<string, Row>
    requires i <= |migs|
  {
    if i == 0 then map[]
    else RowsBefore(migs, i - 1)[migs[i - 1].version := Row(migs[i - 1].content, false, |Stmts(migs[i - 1])|, |Stmts(migs[i - 1])|, 0, "")]
  }

  function RowsAt(migs: seq<Migration>, i: nat, n: nat): map<string, Row>
    requires i < |migs|
  {
    RowsBefore(migs, i)[migs[i].version := Row(migs[i].content, true, |Stmts(migs[i])|, n, 0, "")]
  }

  lemma {:induction false} RowsBeforeHolds(migs: seq<Migration>, i: nat, v: string)
    requires i <= |migs|
    ensures v in RowsBefore(migs, i) <==> exists k :: 0 <= k < i && migs[k].version == v
  {
    if i > 0 { RowsBeforeHolds(migs, i - 1, v); }
  }

  lemma {:induction false} RowsBeforeClean(migs: seq<Migration>, i: nat, k: nat)
    requires DistinctVersions(migs) && k < i <= |migs|
    ensures migs[k].version in RowsBefore(migs, i) && CleanRow(migs[k], RowsBefore(migs, i)[migs[k].version])
  {
    if k < i - 1 { RowsBeforeClean(migs, i - 1, k); }
  }

  lemma AfterSnoc<S(!new)>(e: Server<S>, migs: seq<Migration>, s0: S, evs: seq<Event>, ev: Event)
    ensures After(e, migs, s0, evs + [ev]) == Exec(e, migs, After(e, migs, s0, evs), ev)
  {
    assert (evs + [ev])[..|evs|] == evs;
  }

  /** The state of an uninterrupted run before statement n of migration i. */
  function Reached<S(!new)>(e: Server<S>, migs: seq<Migration>, s0: S, i: nat, n: nat): State<S>
    requires i < |migs| && n <= |Stmts(migs[i])|
  {
    State(Db(Point(e, migs, i, n, s0), RowsAt(migs, i, n)), map[], Statement(i, n, 0, ""))
  }

  function Marks(migs: seq<Migration>, i: nat, n: nat): map<string, Row>
    requires i < |migs| && n < |Stmts(migs[i])|
  {
    var stmt := Stmts(migs[i])[n];
    if IsDdl(stmt) then RowsAt(migs, i, n)[migs[i].version := Row(migs[i].content, true, |Stmts(migs[i])|, n, n + 1, stmt)]
    else RowsAt(migs, i, n)
  }

  /** The state right after statement n of migration i has run. */
  function JustRan<S(!new)>(e: Server<S>, migs: seq<Migration>, s0: S, i: nat, n: nat): State<S>
    requires i < |migs| && n < |Stmts(migs[i])|
  {
    State(Db(Point(e, migs, i, n + 1, s0), Marks(migs, i, n)), map[], Ran(i, n))
  }

  lemma RunOnce<S(!new)>(e: Server<S>, migs: seq<Migration>, s0: S, i: nat, n: nat,
          evs: seq<Event>) returns (evs': seq<Event>)
    requires i < |migs| && n < |Stmts(migs[i])| && After(e, migs, s0, evs) == Reached(e, migs, s0, i, n)
    requires AcceptedAt(e, migs, i, n, s0)
    ensures After(e, migs, s0, evs') == JustRan(e, migs, s0, i, n)
  {
    hide Statements, Base, RowsBefore, After;
    AfterSnoc(e, migs, s0, evs, Go);
    if IsDdl(Stmts(migs[i])[n]) {
      AfterSnoc(e, migs, s0, evs + [Go], Go);
      evs' := evs + [Go] + [Go];
    } else {
      evs' := evs + [Go];
    }
  }

  lemma RecordStep<S(!new)>(e: Server<S>, migs: seq<Migration>, s0: S, i: nat, n: nat)
    requires i < |migs| && n < |Stmts(migs[i])|
    ensures Exec(e, migs, JustRan(e, migs, s0, i, n), Go) == Reached(e, migs, s0, i, n + 1)
  {
    hide Statements, RunStmts, Base, RowsBefore, IsDdl, StartStep, StatementStep, Effect;
    var v := migs[i].version;
    assert RowsAt(migs, i, n)[v := Row(migs[i].content, true, |Stmts(migs[i])|, n + 1, 0, "")] == RowsAt(migs, i, n + 1);
  }

  /** The state between migrations i - 1 and i of an uninterrupted run. */
  function Between<S(!new)>(e: Server<S>, migs: seq<Migration>, s0: S, i: nat): State<S>
    requires i <= |migs|
  {
    State(Db(Base(e, migs, i, s0), RowsBefore(migs, i)), map[], Migrating(i))
  }

  lemma LastRows(migs: seq<Migration>, i: nat)
    requires i < |migs|
    ensures Finished(RowsAt(migs, i, |Stmts(migs[i])|), migs[i].version) == RowsBefore(migs, i + 1)
  {
    hide Statements;
  }

  lemma FinishSteps<S(!new)>(e: Server<S>, migs: seq<Migration>, s0: S, i: nat)
    requires i < |migs|
    ensures Exec(e, migs, Exec(e, migs, Reached(e, migs, s0, i, |Stmts(migs[i])|), Go), Go)
         == Between(e, migs, s0, i + 1)
  {
    hide Statements, RunStmts, RowsBefore, IsDdl, StartStep, Effect, Finished;
    LastRows(migs, i);
    assert Point(e, migs, i, |Stmts(migs[i])|, s0) == Base(e, migs, i + 1, s0);
  }

  lemma InsertStep<S(!new)>(e: Server<S>, migs: seq<Migration>, s0: S, i: nat)
    requires DistinctVersions(migs) && BaselinePasses(e, migs, s0) && i < |migs|
    ensures Exec(e, migs, Between(e, migs, s0, i), Go) == Reached(e, migs, s0, i, 0)
  {
    hide Statements, Base, RowsBefore, IsDdl, StatementStep, Effect;
    RowsBeforeHolds(migs, i, migs[i].version);
  }

  lemma {:induction false} Reach<S(!new)>(e: Server<S>, migs: seq<Migration>, s0: S, i: nat,
          n: nat) returns (evs: seq<Event>)
    requires DistinctVersions(migs) && BaselinePasses(e, migs, s0) && Accepted(e, migs, s0)
    requires i < |migs| && n <= |Stmts(migs[i])|
    ensures After(e, migs, s0, evs) == Reached(e, migs, s0, i, n)
    decreases i, n
  {
    hide Statements, RunStmts, RowsAt, Exec, Reached, JustRan, BaselinePasses, DistinctVersions, AcceptedAt;
    if n > 0 {
      evs := Reach(e, migs, s0, i, n - 1);
      evs := RunOnce(e, migs, s0, i, n - 1, evs);
      AfterSnoc(e, migs, s0, evs, Go);
      RecordStep(e, migs, s0, i, n - 1);
      evs := evs + [Go];
    } else {
      evs := [];
      if i > 0 {
        evs := Reach(e, migs, s0, i - 1, |Stmts(migs[i - 1])|);
        AfterSnoc(e, migs, s0, evs, Go);
        AfterSnoc(e, migs, s0, evs + [Go], Go);
        FinishSteps(e, migs, s0, i - 1);
        evs := evs + [Go] + [Go];
      }
      AfterSnoc(e, migs, s0, evs, Go);
      InsertStep(e, migs, s0, i);
      evs := evs + [Go];
    }
  }

  /** A rerun passes over the applied migrations. */
  lemma {:induction false} SkipApplied<S(!new)>(e: Server<S>, migs: seq<Migration>, s0: S, evs: seq<Event>,
          db: Db<S>, k: nat, i: nat) returns (evs': seq<Event>)
    requires k <= i <= |migs|
    requires forall j :: 0 <= j < i ==> migs[j].version in db.rows && CleanRow(migs[j], db.rows[migs[j].version])
    requires After(e, migs, s0, evs) == State(db, db.rows, Migrating(k))
    ensures After(e, migs, s0, evs') == State(db, db.rows, Migrating(i))
    decreases i - k
  {
    evs' := evs;
    if k < i {
      AfterSnoc(e, migs, s0, evs, Go);
      evs' := SkipApplied(e, migs, s0, evs + [Go], db, k + 1, i);
    }
  }

  /** A crash between running and recording statement n makes the rerun apply it again. */
  lemma CrashRepeats<S(!new)>(e: Server<S>, migs: seq<Migration>, s0: S, i: nat, n: nat) returns (evs: seq<Event>)
    requires DistinctVersions(migs) && BaselinePasses(e, migs, s0) && Accepted(e, migs, s0)
    requires i < |migs| && n < |Stmts(migs[i])|
    ensures var (st, again) := (After(e, migs, s0, evs), Run(e, Point(e, migs, i, n + 1, s0), Stmts(migs[i])[n]));
            if again.None? then st.pc == Failed(Refused) else st.pc == Ran(i, n) && st.db.schema == again.value
  {
    evs := Reach(e, migs, s0, i, n);
    evs := RunOnce(e, migs, s0, i, n, evs);
    AfterSnoc(e, migs, s0, evs, Rerun);
    evs := evs + [Rerun];
    var db := After(e, migs, s0, evs).db;
    forall j | 0 <= j < i ensures migs[j].version in db.rows && CleanRow(migs[j], db.rows[migs[j].version]) {
      RowsBeforeClean(migs, i, j);
      assert migs[j].version != migs[i].version;
    }
    evs := SkipApplied(e, migs, s0, evs, db, 0, i);
    evs := Resume(e, migs, s0, i, n, evs);
  }

  lemma Resume<S(!new)>(e: Server<S>, migs: seq<Migration>, s0: S, i: nat, n: nat,
          evs: seq<Event>) returns (evs': seq<Event>)
    requires i < |migs| && n < |Stmts(migs[i])|
    requires var st := After(e, migs, s0, evs);
             st.pc == Migrating(i) && st.loaded == st.db.rows == Marks(migs, i, n)
    ensures var (st, again) := (After(e, migs, s0, evs'), Run(e, After(e, migs, s0, evs).db.schema, Stmts(migs[i])[n]));
            if again.None? then st.pc == Failed(Refused) else st.pc == Ran(i, n) && st.db.schema == again.value
  {
    AfterSnoc(e, migs, s0, evs, Go);
    AfterSnoc(e, migs, s0, evs + [Go], Go);
    evs' := evs + [Go] + [Go];
    if IsDdl(Stmts(migs[i])[n]) {
      AfterSnoc(e, migs, s0, evs', Go);
      evs' := evs' + [Go];
    }
  }

  /** Recorded progress is true on every run with crashes exactly when every
      statement is repeatable at the point where it runs. */
  lemma ProgressExactly<S(!new)>(e: Server<S>, migs: seq<Migration>, s0: S)
    requires DistinctVersions(migs) && BaselinePasses(e, migs, s0) && Accepted(e, migs, s0)
    ensures (forall evs :: ProgressTrue(e, migs, s0, After(e, migs, s0, evs))) <==> Repeatable(e, migs, s0)
  {
    if Repeatable(e, migs, s0) {
      forall evs ensures ProgressTrue(e, migs, s0, After(e, migs, s0, evs)) {
        var i := CrashSafe(e, migs, s0, evs);
      }
    } else {
      var i, n :| 0 <= i < |migs| && 0 <= n < |Stmts(migs[i])| && !RepeatableAt(e, migs, i, n, s0);
      var evs := CrashRepeats(e, migs, s0, i, n);
      assert !ProgressTrue(e, migs, s0, After(e, migs, s0, evs));
    }
  }

  // ----- runs that never get stuck ----------------------------------------------------

  lemma ResumeAccepted<S(!new)>(e: Server<S>, migs: seq<Migration>, s0: S, st: State<S>, i: nat, n: nat)
    requires Accepted(e, migs, s0) && Resumes(e, migs, s0) && Inv(e, migs, s0, st, i)
    requires i < |migs| && n == Cursor(migs, st.db.rows, i) && n < |Stmts(migs[i])|
    ensures Run(e, st.db.schema, Stmts(migs[i])[n]).Some?
  {
    assert AcceptedAt(e, migs, i, n, s0) && ResumesAt(e, migs, i, n, s0);
  }

  lemma StepAccepted<S(!new)>(e: Server<S>, migs: seq<Migration>, s0: S, st: State<S>, i: nat)
    requires Accepted(e, migs, s0) && Resumes(e, migs, s0) && Inv(e, migs, s0, st, i)
    requires InRange(migs, st.pc) && st.pc != Failed(Refused)
    ensures Step(e, migs, st).pc != Failed(Refused)
  {
    hide SchemaOk, Run, Accepted, Resumes;
    match st.pc
    case Statement(_, n, _, _) => if n < |Stmts(migs[i])| { ResumeAccepted(e, migs, s0, st, i, n); }
    case Marked(_, n) => ResumeAccepted(e, migs, s0, st, i, n);
    case _ =>
  }

  lemma {:induction false} NeverRefused<S(!new)>(e: Server<S>, migs: seq<Migration>, s0: S, evs: seq<Event>)
    requires DistinctVersions(migs) && Accepted(e, migs, s0) && Resumes(e, migs, s0)
    ensures After(e, migs, s0, evs).pc != Failed(Refused)
  {
    hide Accepted, Resumes, Step, Inv;
    if evs != [] {
      var front := evs[..|evs| - 1];
      NeverRefused(e, migs, s0, front);
      ResumesRepeats(e, migs, s0);
      var i := CrashSafe(e, migs, s0, front);
      if InRange(migs, After(e, migs, s0, front).pc) { StepAccepted(e, migs, s0, After(e, migs, s0, front), i); }
    }
  }

  /** Recorded progress stays true and no run with crashes ever meets a refusal exactly
      when every statement, applied again right after it ran, is accepted and changes nothing. */
  lemma NeverStuckExactly<S(!new)>(e: Server<S>, migs: seq<Migration>, s0: S)
    requires DistinctVersions(migs) && BaselinePasses(e, migs, s0) && Accepted(e, migs, s0)
    ensures (forall evs :: Good(e, migs, s0, After(e, migs, s0, evs))) <==> Resumes(e, migs, s0)
  {
    hide Accepted, BaselinePasses, After;
    if Resumes(e, migs, s0) {
      ResumesRepeats(e, migs, s0);
      ProgressExactly(e, migs, s0);
      forall evs ensures Good(e, migs, s0, After(e, migs, s0, evs)) { NeverRefused(e, migs, s0, evs); }
    } else {
      var i, n :| 0 <= i < |migs| && 0 <= n < |Stmts(migs[i])| && !ResumesAt(e, migs, i, n, s0);
      var evs := CrashRepeats(e, migs, s0, i, n);
      assert !Good(e, migs, s0, After(e, migs, s0, evs));
    }
  }

  ghost predicate Good<S(!new)>(e: Server<S>, migs: seq<Migration>, s0: S, st: State<S>) {
    ProgressTrue(e, migs, s0, st) && st.pc != Failed(Refused)
  }

  // ----- a completed run was accepted throughout --------------------------------------------

  /** Nothing before the cursor, nor what is about to be recorded, was refused. */
  ghost predicate Passed<S(!new)>(e: Server<S>, migs: seq<Migration>, s0: S, st: State<S>, i: nat) {
    && (forall k, n :: 0 <= k < i && k < |migs| && 0 <= n < |Stmts(migs[k])| ==> AcceptedAt(e, migs, k, n, s0))
    && (i < |migs| ==>
          forall n :: 0 <= n < Cursor(migs, st.db.rows, i) && n < |Stmts(migs[i])| ==> AcceptedAt(e, migs, i, n, s0))
    && (st.pc.Ran? && st.pc.i < |migs| && st.pc.n < |Stmts(migs[st.pc.i])| ==> AcceptedAt(e, migs, st.pc.i, st.pc.n, s0))
  }

  /** A statement that a run gets past was not refused in an uninterrupted run either. */
  lemma RanMeansAccepted<S(!new)>(e: Server<S>, migs: seq<Migration>, s0: S, st: State<S>, i: nat, n: nat)
    requires Inv(e, migs, s0, st, i) && i < |migs| && n == Cursor(migs, st.db.rows, i) && n < |Stmts(migs[i])|
    requires Run(e, st.db.schema, Stmts(migs[i])[n]).Some?
    ensures AcceptedAt(e, migs, i, n, s0)
  {
    assert Point(e, migs, i, n + 1, s0) == Effect(e, Point(e, migs, i, n, s0), Stmts(migs[i])[n]);
  }

  lemma StepPassed<S(!new)>(e: Server<S>, migs: seq<Migration>, s0: S, st: State<S>, i: nat)
    requires DistinctVersions(migs) && Inv(e, migs, s0, st, i) && InRange(migs, st.pc) && Passed(e, migs, s0, st, i)
    ensures Passed(e, migs, s0, Step(e, migs, st), if st.pc.Finish? then i + 1 else i)
  {
    hide SchemaOk, AcceptedAt, Run, IsDdl, Statements, Markable, Persistable;
    match st.pc
    case Statement(_, n, _, _) =>
      if n < |Stmts(migs[i])| && Run(e, st.db.schema, Stmts(migs[i])[n]).Some? { RanMeansAccepted(e, migs, s0, st, i, n); }
    case Marked(_, n) =>
      if Run(e, st.db.schema, Stmts(migs[i])[n]).Some? { RanMeansAccepted(e, migs, s0, st, i, n); }
    case _ =>
  }

  lemma {:induction false} RunPassed<S(!new)>(e: Server<S>, migs: seq<Migration>, s0: S, evs: seq<Event>) returns (i: nat)
    requires DistinctVersions(migs) && Repeatable(e, migs, s0)
    ensures Inv(e, migs, s0, After(e, migs, s0, evs), i) && Passed(e, migs, s0, After(e, migs, s0, evs), i)
  {
    hide Repeatable, Step, AcceptedAt;
    if evs == [] {
      i := 0;
      assert |migs| > 0 ==> Point(e, migs, 0, 0, s0) == s0;
    } else {
      var front := evs[..|evs| - 1];
      i := RunPassed(e, migs, s0, front);
      var st := After(e, migs, s0, front);
      hide After, Inv, Passed;
      assert After(e, migs, s0, evs) == Exec(e, migs, st, evs[|evs| - 1]) by {
        AfterSnoc(e, migs, s0, front, evs[|evs| - 1]);
        assert evs == front + [evs[|evs| - 1]];
      }
      if evs[|evs| - 1] == Go {
        StepKeeps(e, migs, s0, st, i);
        StepPassed(e, migs, s0, st, i);
        i := if st.pc.Finish? then i + 1 else i;
      } else {
        RestartPassed(e, migs, s0, st, i);
      }
    }
  }

  lemma RestartPassed<S(!new)>(e: Server<S>, migs: seq<Migration>, s0: S, st: State<S>, i: nat)
    requires Inv(e, migs, s0, st, i) && Passed(e, migs, s0, st, i)
    ensures Inv(e, migs, s0, Restart(st), i) && Passed(e, migs, s0, Restart(st), i)
  {
    hide SchemaOk, AcceptedAt;
  }

  /** A run that completes, whatever crashed before, was refused nothing that an
      uninterrupted run would meet: its final schema is that of a successful one. */
  lemma CompleteMeansAccepted<S(!new)>(e: Server<S>, migs: seq<Migration>, s0: S, evs: seq<Event>)
    requires DistinctVersions(migs) && Repeatable(e, migs, s0) && After(e, migs, s0, evs).pc == Complete
    ensures Accepted(e, migs, s0) && After(e, migs, s0, evs).db.schema == Base(e, migs, |migs|, s0)
  {
    hide AcceptedAt, Repeatable, After;
    var i := RunPassed(e, migs, s0, evs);
    CompleteMeansUninterrupted(e, migs, s0, evs);
  }
}
