/** Migrations of ALTER TABLE statements under crashes: the runner with the check that
    it really uses, instead of any faithful one. */
module AlterRuns {
  import opened Decimal
  import opened Migrate
  import opened MigrateExact
  import D = DdlCheck

  /** A server of one table. `parse` gives the clauses of a statement. */
  function AlterServer(parse: string -> seq<D.Clause>): Server<D.Table> {
    Server((t: D.Table, stmt: string) => if D.Executable(t, parse(stmt)) then Some(D.Exec(t, parse(stmt))) else None,
           (t: D.Table, stmt: string) => D.Applied(t, parse(stmt)),
           (t: D.Table) => true)
  }

  predicate AllDdl(migs: seq<Migration>) {
    forall i, n :: 0 <= i < |migs| && 0 <= n < |Stmts(migs[i])| ==> IsDdl(Stmts(migs[i])[n])
  }

  lemma RunIsEffect(parse: string -> seq<D.Clause>, t: D.Table, stmt: string)
    requires IsDdl(stmt)
    ensures Run(AlterServer(parse), t, stmt) == D.Effect(t, parse(stmt))
  {
    hide D.Applied, D.Executable, D.Exec, IsDdl;
  }

  /** A statement that is reported or settled once it has run, or that the check takes
      for applied where it first stands. */
  predicate Survives(t: D.Table, a: seq<D.Clause>) {
    || D.Applied(t, a)
    || ((exists c :: c in a && D.Looks(a, c)) && !D.Replaces(a))
    || D.Balanced(a)
  }

  lemma SurvivesExactly(t: D.Table, a: seq<D.Clause>)
    requires D.Effect(t, a).Some?
    ensures D.Effect(D.Effect(t, a).value, a) == D.Effect(t, a) <==> Survives(t, a)
  {
    hide D.Applied, D.Executable, D.Exec, D.Looks, D.Replaces, D.Balanced;
    if !D.Applied(t, a) { D.ResumesExactly(t, a); }
  }

  ghost predicate SurvivesAt(parse: string -> seq<D.Clause>, migs: seq<Migration>, i: nat, n: nat, t0: D.Table)
    requires i < |migs| && n < |Stmts(migs[i])|
  {
    Survives(Point(AlterServer(parse), migs, i, n, t0), parse(Stmts(migs[i])[n]))
  }

  lemma ResumesAtExactly(parse: string -> seq<D.Clause>, migs: seq<Migration>, i: nat, n: nat, t0: D.Table)
    requires i < |migs| && n < |Stmts(migs[i])| && IsDdl(Stmts(migs[i])[n])
    requires AcceptedAt(AlterServer(parse), migs, i, n, t0)
    ensures ResumesAt(AlterServer(parse), migs, i, n, t0) <==> SurvivesAt(parse, migs, i, n, t0)
  {
    hide D.Effect, AlterServer, Run, Survives, IsDdl;
    var (e, stmt) := (AlterServer(parse), Stmts(migs[i])[n]);
    var t := Point(e, migs, i, n, t0);
    assert Point(e, migs, i, n + 1, t0) == Effect(e, t, stmt);
    RunIsEffect(parse, t, stmt);
    RunIsEffect(parse, Effect(e, t, stmt), stmt);
    SurvivesExactly(t, parse(stmt));
  }

  /** A list of ALTER statements that the server accepts one after the other survives
      every crash - progress stays true and no rerun is refused - exactly when each of
      them survives one. */
  lemma AltersSurviveExactly(parse: string -> seq<D.Clause>, migs: seq<Migration>, t0: D.Table)
    requires DistinctVersions(migs) && AllDdl(migs) && Accepted(AlterServer(parse), migs, t0)
    ensures (forall evs :: Good(AlterServer(parse), migs, t0, After(AlterServer(parse), migs, t0, evs))) <==>
            forall i, n :: 0 <= i < |migs| && 0 <= n < |Stmts(migs[i])| ==> SurvivesAt(parse, migs, i, n, t0)
  {
    hide Good, After, SurvivesAt, ResumesAt, AcceptedAt, Stmts, IsDdl;
    var e := AlterServer(parse);
    assert BaselinePasses(e, migs, t0);
    NeverStuckExactly(e, migs, t0);
    forall i, n | 0 <= i < |migs| && 0 <= n < |Stmts(migs[i])|
      ensures ResumesAt(e, migs, i, n, t0) <==> SurvivesAt(parse, migs, i, n, t0)
    {
      assert AcceptedAt(e, migs, i, n, t0);
      ResumesAtExactly(parse, migs, i, n, t0);
    }
  }
}
