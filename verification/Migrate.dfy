/** The crash-resumable migration runner: durable statement progress, the pending
    fingerprint of a DDL statement, and the check whether it is already applied. */
module Migrate {
  import opened Decimal
  import opened Splitter

  /** SHA-256 digests are taken as injective and stand for the text they digest. */
  datatype Migration = Migration(version: string, content: string)

  datatype Row = Row(content: string, dirty: bool, count: nat, last: nat, pending: nat, pendingStmt: string)

  datatype Db<S> = Db(schema: S, rows: map<string, Row>)

  /** The database server: executing a statement, None when it is refused and changes
      nothing, information_schema's verdict on a DDL statement, and the preflight of
      migration 0002. */
  datatype Server<!S(!new)> = Server(exec: (S, string) -> Option<S>, applied: (S, string) -> bool, baseline: S -> bool)

  datatype Error = ChecksumMismatch | Baseline | InsertFailed | CountChanged | Fingerprint | NotPersisted | Refused

  /** Where a run is; a Statement carries the locally held pending mark. */
  datatype Pc = Migrating(i: nat)
              | Statement(i: nat, n: nat, pending: nat, pendingStmt: string)
              | Marked(i: nat, n: nat)
              | Ran(i: nat, n: nat)
              | Finish(i: nat)
              | Complete
              | Failed(error: Error)

  /** `loaded` is what the run read at its start. */
  datatype State<S> = State(db: Db<S>, loaded: map<string, Row>, pc: Pc)

  function Stmts(m: Migration): seq<string> { Statements(m.content) }

  predicate IsDdl(stmt: string) {
    HasPrefix(stmt, "ALTER TABLE") || HasPrefix(stmt, "CREATE TABLE") || HasPrefix(stmt, "CREATE DATABASE")
  }

  /** A statement as the runner applies it: DDL only when not already applied. */
  function Run<S(!new)>(e: Server<S>, s: S, stmt: string): Option<S> {
    if IsDdl(stmt) && e.applied(s, stmt) then Some(s) else e.exec(s, stmt)
  }

  function Effect<S(!new)>(e: Server<S>, s: S, stmt: string): S {
    match Run(e, s, stmt)
    case None => s
    case Some(s') => s'
  }

  // ----- durable updates ------------------------------------------------------

  predicate Markable(rows: map<string, Row>, v: string, n: nat, stmt: string) {
    && v in rows && rows[v].dirty && rows[v].last == n
    && (rows[v].pending == 0 || (rows[v].pending == n + 1 && rows[v].pendingStmt == stmt))
  }

  predicate Persistable(rows: map<string, Row>, v: string, n: nat) {
    v in rows && rows[v].dirty && rows[v].last == n
  }

  function Finished(rows: map<string, Row>, v: string): map<string, Row> {
    if v in rows && rows[v].dirty && rows[v].last == rows[v].count then rows[v := rows[v].(dirty := false)] else rows
  }

  // ----- one durable step -------------------------------------------------------

  function StartStep<S(!new)>(e: Server<S>, m: Migration, i: nat, st: State<S>): State<S> {
    if m.version in st.loaded && st.loaded[m.version].content != m.content then st.(pc := Failed(ChecksumMismatch))
    else if m.version in st.loaded && !st.loaded[m.version].dirty then st.(pc := Migrating(i + 1))
    else if m.version !in st.loaded then
      if m.version == "0002" && !e.baseline(st.db.schema) then st.(pc := Failed(Baseline))
      else if m.version in st.db.rows then st.(pc := Failed(InsertFailed))
      else st.(db := st.db.(rows := st.db.rows[m.version := Row(m.content, true, |Stmts(m)|, 0, 0, "")]),
               pc := Statement(i, 0, 0, ""))
    else if st.loaded[m.version].count != |Stmts(m)| then st.(pc := Failed(CountChanged))
    else
      var r := st.loaded[m.version];
      st.(pc := Statement(i, r.last, r.pending, r.pendingStmt))
  }

  function RunStep<S(!new)>(e: Server<S>, stmt: string, i: nat, n: nat, st: State<S>): State<S> {
    match Run(e, st.db.schema, stmt)
    case None => st.(pc := Failed(Refused))
    case Some(schema) => st.(db := st.db.(schema := schema), pc := Ran(i, n))
  }

  function StatementStep<S(!new)>(e: Server<S>, m: Migration, st: State<S>): State<S>
    requires st.pc.Statement?
  {
    var (n, stmts) := (st.pc.n, Stmts(m));
    if n >= |stmts| then st.(pc := Finish(st.pc.i))
    else if !IsDdl(stmts[n]) then RunStep(e, stmts[n], st.pc.i, n, st)
    else if st.pc.pending != 0 && (st.pc.pending != n + 1 || st.pc.pendingStmt != stmts[n]) then
      st.(pc := Failed(Fingerprint))
    else if !Markable(st.db.rows, m.version, n, stmts[n]) then st.(pc := Failed(NotPersisted))
    else
      var r := st.db.rows[m.version].(pending := n + 1, pendingStmt := stmts[n]);
      st.(db := st.db.(rows := st.db.rows[m.version := r]), pc := Marked(st.pc.i, n))
  }

  function PersistStep<S>(m: Migration, st: State<S>): State<S>
    requires st.pc.Ran?
  {
    var n := st.pc.n;
    if !Persistable(st.db.rows, m.version, n) then st.(pc := Failed(NotPersisted))
    else
      var r := st.db.rows[m.version].(last := n + 1, pending := 0, pendingStmt := "");
      st.(db := st.db.(rows := st.db.rows[m.version := r]), pc := Statement(st.pc.i, n + 1, 0, ""))
  }

  predicate InRange(migs: seq<Migration>, pc: Pc) {
    match pc
    case Migrating(i) => i <= |migs|
    case Statement(i, _, _, _) => i < |migs|
    case Marked(i, n) => i < |migs| && n < |Stmts(migs[i])|
    case Ran(i, n) => i < |migs|
    case Finish(i) => i < |migs|
    case Complete => true
    case Failed(_) => true
  }

  function Step<S(!new)>(e: Server<S>, migs: seq<Migration>, st: State<S>): State<S>
    requires InRange(migs, st.pc)
  {
    match st.pc
    case Migrating(i) => if i == |migs| then st.(pc := Complete) else StartStep(e, migs[i], i, st)
    case Statement(i, _, _, _) => StatementStep(e, migs[i], st)
    case Marked(i, n) => RunStep(e, Stmts(migs[i])[n], i, n, st)
    case Ran(i, n) => PersistStep(migs[i], st)
    case Finish(i) => st.(db := st.db.(rows := Finished(st.db.rows, migs[i].version)), pc := Migrating(i + 1))
    case Complete => st
    case Failed(_) => st
  }

  /** A crash, or the end of a run, followed by a fresh run. */
  function Restart<S>(st: State<S>): State<S> { State(st.db, st.db.rows, Migrating(0)) }

  datatype Event = Go | Rerun

  // ----- the uninterrupted run ------------------------------------------------------

  function RunStmts<S(!new)>(e: Server<S>, stmts: seq<string>, n: nat, s: S): S
    requires n <= |stmts|
  {
    if n == 0 then s else Effect(e, RunStmts(e, stmts, n - 1, s), stmts[n - 1])
  }

  /** The schema before migration i when nothing ever crashes. */
  function Base<S(!new)>(e: Server<S>, migs: seq<Migration>, i: nat, s0: S): S
    requires i <= |migs|
  {
    if i == 0 then s0
    else RunStmts(e, Stmts(migs[i - 1]), |Stmts(migs[i - 1])|, Base(e, migs, i - 1, s0))
  }

  /** The schema after n statements of migration i. */
  function Point<S(!new)>(e: Server<S>, migs: seq<Migration>, i: nat, n: nat, s0: S): S
    requires i < |migs| && n <= |Stmts(migs[i])|
  {
    RunStmts(e, Stmts(migs[i]), n, Base(e, migs, i, s0))
  }

  /** Applying any statement again where it has just been applied changes nothing. */
  ghost predicate Repeatable<S(!new)>(e: Server<S>, migs: seq<Migration>, s0: S) {
    forall i, n :: 0 <= i < |migs| && 0 <= n < |Stmts(migs[i])| ==> RepeatableAt(e, migs, i, n, s0)
  }

  ghost predicate RepeatableAt<S(!new)>(e: Server<S>, migs: seq<Migration>, i: nat, n: nat, s0: S)
    requires i < |migs| && n < |Stmts(migs[i])|
  {
    var s := Point(e, migs, i, n + 1, s0);
    Effect(e, s, Stmts(migs[i])[n]) == s
  }

  /** No statement is refused where an uninterrupted run meets it. */
  ghost predicate Accepted<S(!new)>(e: Server<S>, migs: seq<Migration>, s0: S) {
    forall i, n :: 0 <= i < |migs| && 0 <= n < |Stmts(migs[i])| ==> AcceptedAt(e, migs, i, n, s0)
  }

  ghost predicate AcceptedAt<S(!new)>(e: Server<S>, migs: seq<Migration>, i: nat, n: nat, s0: S)
    requires i < |migs| && n < |Stmts(migs[i])|
  {
    Run(e, Point(e, migs, i, n, s0), Stmts(migs[i])[n]).Some?
  }

  /** Any statement applied again where it has just been applied is accepted and changes nothing. */
  ghost predicate Resumes<S(!new)>(e: Server<S>, migs: seq<Migration>, s0: S) {
    forall i, n :: 0 <= i < |migs| && 0 <= n < |Stmts(migs[i])| ==> ResumesAt(e, migs, i, n, s0)
  }

  ghost predicate ResumesAt<S(!new)>(e: Server<S>, migs: seq<Migration>, i: nat, n: nat, s0: S)
    requires i < |migs| && n < |Stmts(migs[i])|
  {
    var s := Point(e, migs, i, n + 1, s0);
    Run(e, s, Stmts(migs[i])[n]) == Some(s)
  }

  lemma ResumesRepeats<S(!new)>(e: Server<S>, migs: seq<Migration>, s0: S)
    requires Resumes(e, migs, s0)
    ensures Repeatable(e, migs, s0)
  {
    forall i, n | 0 <= i < |migs| && 0 <= n < |Stmts(migs[i])| ensures RepeatableAt(e, migs, i, n, s0) {
      assert ResumesAt(e, migs, i, n, s0);
    }
  }

  /** After a DDL statement ran, the check reports it applied. */
  ghost predicate FaithfulCheck<S(!new)>(e: Server<S>) {
    forall s, stmt :: IsDdl(stmt) && !e.applied(s, stmt) && e.exec(s, stmt).Some? ==> e.applied(e.exec(s, stmt).value, stmt)
  }

  ghost predicate IdempotentOthers<S(!new)>(e: Server<S>) {
    forall s, stmt :: !IsDdl(stmt) && e.exec(s, stmt).Some? ==> e.exec(e.exec(s, stmt).value, stmt) == e.exec(s, stmt)
  }

  /** A faithful check and idempotent other statements suffice. */
  lemma FaithfulIsRepeatable<S(!new)>(e: Server<S>, migs: seq<Migration>, s0: S)
    requires FaithfulCheck(e) && IdempotentOthers(e)
    ensures Repeatable(e, migs, s0)
    ensures Accepted(e, migs, s0) ==> Resumes(e, migs, s0)
  {
    forall i, n | 0 <= i < |migs| && 0 <= n < |Stmts(migs[i])|
      ensures RepeatableAt(e, migs, i, n, s0) && (AcceptedAt(e, migs, i, n, s0) ==> ResumesAt(e, migs, i, n, s0))
    {
      var s, stmt := Point(e, migs, i, n, s0), Stmts(migs[i])[n];
      assert Point(e, migs, i, n + 1, s0) == Effect(e, s, stmt);
    }
  }

  // ----- the invariant of every run ---------------------------------------------------

  predicate DistinctVersions(migs: seq<Migration>) {
    forall i, j :: 0 <= i < j < |migs| ==> migs[i].version != migs[j].version
  }

  predicate CleanRow(m: Migration, r: Row) { r.content == m.content && !r.dirty && r.count == |Stmts(m)| == r.last }

  /** A dirty row's pending mark, if any, names the next statement by its own text. */
  predicate DirtyRow(m: Migration, r: Row) {
    && r.content == m.content && r.dirty && r.count == |Stmts(m)| && r.last <= r.count
    && (r.pending != 0 ==> r.pending == r.last + 1 && r.last < r.count
                           && IsDdl(Stmts(m)[r.last]) && r.pendingStmt == Stmts(m)[r.last])
  }

  /** The first i migrations are applied, at most the i-th is dirty, no other has a row. */
  predicate Prefix(migs: seq<Migration>, rows: map<string, Row>, i: nat) {
    && i <= |migs|
    && (forall k :: 0 <= k < i ==> migs[k].version in rows && CleanRow(migs[k], rows[migs[k].version]))
    && (i < |migs| && migs[i].version in rows ==> DirtyRow(migs[i], rows[migs[i].version]))
    && (forall k :: i < k < |migs| ==> migs[k].version !in rows)
  }

  function Cursor(migs: seq<Migration>, rows: map<string, Row>, i: nat): nat {
    if i < |migs| && migs[i].version in rows then rows[migs[i].version].last else 0
  }

  /** The schema is that of the cursor, or one unrecorded statement ahead of it. */
  ghost predicate SchemaOk<S(!new)>(e: Server<S>, migs: seq<Migration>, s0: S, db: Db<S>, i: nat) {
    if i == |migs| then db.schema == Base(e, migs, i, s0)
    else
      i < |migs| &&
      var n := Cursor(migs, db.rows, i);
      n <= |Stmts(migs[i])| &&
      (db.schema == Point(e, migs, i, n, s0) ||
       (migs[i].version in db.rows && n < |Stmts(migs[i])| && db.schema == Point(e, migs, i, n + 1, s0)))
  }

  predicate SameRow(loaded: map<string, Row>, rows: map<string, Row>, v: string) {
    (v in loaded <==> v in rows) && (v in loaded ==> loaded[v] == rows[v])
  }

  /** What the run remembers agrees with the database from migration k on. */
  predicate LoadedFrom(migs: seq<Migration>, loaded: map<string, Row>, rows: map<string, Row>, k: nat) {
    forall j :: k <= j < |migs| ==> SameRow(loaded, rows, migs[j].version)
  }

  ghost predicate PcOk<S(!new)>(e: Server<S>, migs: seq<Migration>, s0: S, st: State<S>, i: nat)
    requires i <= |migs|
  {
    var rows := st.db.rows;
    match st.pc
    case Migrating(k) => k <= i && LoadedFrom(migs, st.loaded, rows, k)
    case Statement(k, n, p, ps) =>
      k == i < |migs| && migs[i].version in rows && LoadedFrom(migs, st.loaded, rows, i + 1) &&
      var r := rows[migs[i].version];
      n == r.last && p == r.pending && ps == r.pendingStmt
    case Marked(k, n) =>
      k == i < |migs| && migs[i].version in rows && LoadedFrom(migs, st.loaded, rows, i + 1)
      && n == rows[migs[i].version].last && n < |Stmts(migs[i])| && IsDdl(Stmts(migs[i])[n])
    case Ran(k, n) =>
      k == i < |migs| && migs[i].version in rows && LoadedFrom(migs, st.loaded, rows, i + 1)
      && n == rows[migs[i].version].last && n < |Stmts(migs[i])|
      && st.db.schema == Point(e, migs, i, n + 1, s0)
    case Finish(k) =>
      k == i < |migs| && migs[i].version in rows && LoadedFrom(migs, st.loaded, rows, i + 1)
      && rows[migs[i].version].last == |Stmts(migs[i])|
    case Complete => i == |migs|
    case Failed(error) =>
      || (error == Baseline && i < |migs| && migs[i].version == "0002" && "0002" !in rows && !e.baseline(Base(e, migs, i, s0)))
      || (error == Refused && i < |migs| && migs[i].version in rows && Cursor(migs, rows, i) < |Stmts(migs[i])|
          && Run(e, st.db.schema, Stmts(migs[i])[Cursor(migs, rows, i)]).None?)
  }

  ghost predicate Inv<S(!new)>(e: Server<S>, migs: seq<Migration>, s0: S, st: State<S>, i: nat) {
    Prefix(migs, st.db.rows, i) && SchemaOk(e, migs, s0, st.db, i) && PcOk(e, migs, s0, st, i)
  }

  function Start<S>(s0: S): State<S> { State(Db(s0, map[]), map[], Migrating(0)) }

  function Exec<S(!new)>(e: Server<S>, migs: seq<Migration>, st: State<S>, ev: Event): State<S> {
    match ev
    case Rerun => Restart(st)
    case Go => if InRange(migs, st.pc) then Step(e, migs, st) else st
  }

  function After<S(!new)>(e: Server<S>, migs: seq<Migration>, s0: S, evs: seq<Event>): State<S> {
    if evs == [] then Start(s0)
    else Exec(e, migs, After(e, migs, s0, evs[..|evs| - 1]), evs[|evs| - 1])
  }

  // ----- every step keeps the invariant -------------------------------------------

  lemma StartStepKeeps<S(!new)>(e: Server<S>, migs: seq<Migration>, s0: S, st: State<S>, i: nat)
    requires DistinctVersions(migs) && Inv(e, migs, s0, st, i) && st.pc.Migrating? && st.pc.i < |migs|
    ensures Inv(e, migs, s0, Step(e, migs, st), i)
  {
    var k := st.pc.i;
    var m := migs[k];
    assert SameRow(st.loaded, st.db.rows, m.version);
    if k == i && m.version !in st.loaded {
      assert Point(e, migs, i, 0, s0) == Base(e, migs, i, s0);
    }
  }

  lemma MarkStepKeeps<S(!new)>(e: Server<S>, migs: seq<Migration>, s0: S, st: State<S>, i: nat)
    requires DistinctVersions(migs) && Repeatable(e, migs, s0) && Inv(e, migs, s0, st, i) && st.pc.Statement?
    ensures Inv(e, migs, s0, Step(e, migs, st), i)
  {
    var n := st.pc.n;
    if n < |Stmts(migs[i])| {
      EffectAdvances(e, migs, s0, st.db, i);
    }
  }

  /** Running the next statement leads to its successor point, whether or not it had
      already been run before a crash. */
  lemma EffectAdvances<S(!new)>(e: Server<S>, migs: seq<Migration>, s0: S, db: Db<S>, i: nat)
    requires Repeatable(e, migs, s0) && i < |migs| && SchemaOk(e, migs, s0, db, i)
    requires Cursor(migs, db.rows, i) < |Stmts(migs[i])|
    ensures var n := Cursor(migs, db.rows, i);
            Effect(e, db.schema, Stmts(migs[i])[n]) == Point(e, migs, i, n + 1, s0)
  {
    assert RepeatableAt(e, migs, i, Cursor(migs, db.rows, i), s0);
  }

  lemma RunStepKeeps<S(!new)>(e: Server<S>, migs: seq<Migration>, s0: S, st: State<S>, i: nat)
    requires DistinctVersions(migs) && Repeatable(e, migs, s0) && Inv(e, migs, s0, st, i)
    requires st.pc.Marked? || st.pc.Ran?
    ensures Inv(e, migs, s0, Step(e, migs, st), i)
  {
    if st.pc.Marked? { EffectAdvances(e, migs, s0, st.db, i); }
  }

  lemma FinishStepKeeps<S(!new)>(e: Server<S>, migs: seq<Migration>, s0: S, st: State<S>, i: nat)
    requires DistinctVersions(migs) && Inv(e, migs, s0, st, i) && st.pc.Finish?
    ensures Inv(e, migs, s0, Step(e, migs, st), i + 1)
  {
    var rows := st.db.rows;
    var v := migs[i].version;
    assert DirtyRow(migs[i], rows[v]);
    assert Base(e, migs, i + 1, s0) == Point(e, migs, i, |Stmts(migs[i])|, s0);
    var st' := Step(e, migs, st);
    assert i + 1 < |migs| ==> Point(e, migs, i + 1, 0, s0) == Base(e, migs, i + 1, s0);
  }

  lemma StepKeeps<S(!new)>(e: Server<S>, migs: seq<Migration>, s0: S, st: State<S>, i: nat)
    requires DistinctVersions(migs) && Repeatable(e, migs, s0) && Inv(e, migs, s0, st, i)
    ensures InRange(migs, st.pc)
    ensures Inv(e, migs, s0, Step(e, migs, st), if st.pc.Finish? then i + 1 else i)
  {
    match st.pc
    case Migrating(k) => if k < |migs| { StartStepKeeps(e, migs, s0, st, i); }
    case Statement(_, _, _, _) => MarkStepKeeps(e, migs, s0, st, i);
    case Marked(_, _) => RunStepKeeps(e, migs, s0, st, i);
    case Ran(_, _) => RunStepKeeps(e, migs, s0, st, i);
    case Finish(_) => FinishStepKeeps(e, migs, s0, st, i);
    case Complete =>
    case Failed(_) =>
  }

  /** Crash safety: after any number of crashes and reruns at any durable step, the
      applied migrations form a prefix, at most the next one is dirty with a pending
      mark that names its next statement, the schema is that of the cursor or one
      statement ahead, and no run ever fails except where the preflight refuses the schema
      of an uninterrupted run or the server refuses the statement at the cursor. */
  lemma {:induction false} CrashSafe<S(!new)>(e: Server<S>, migs: seq<Migration>, s0: S,
          evs: seq<Event>) returns (i: nat)
    requires DistinctVersions(migs) && Repeatable(e, migs, s0)
    ensures Inv(e, migs, s0, After(e, migs, s0, evs), i)
  {
    if evs == [] {
      i := 0;
      assert |migs| > 0 ==> Point(e, migs, 0, 0, s0) == s0;
    } else {
      var front := evs[..|evs| - 1];
      i := CrashSafe(e, migs, s0, front);
      var st := After(e, migs, s0, front);
      if evs[|evs| - 1] == Go {
        StepKeeps(e, migs, s0, st, i);
        i := if st.pc.Finish? then i + 1 else i;
      }
    }
  }

  /** A completed run leaves the schema of an uninterrupted one, whatever crashed before. */
  lemma CompleteMeansUninterrupted<S(!new)>(e: Server<S>, migs: seq<Migration>, s0: S, evs: seq<Event>)
    requires DistinctVersions(migs) && Repeatable(e, migs, s0)
    requires After(e, migs, s0, evs).pc == Complete
    ensures After(e, migs, s0, evs).db.schema == Base(e, migs, |migs|, s0)
    ensures forall k :: 0 <= k < |migs| ==>
              migs[k].version in After(e, migs, s0, evs).db.rows
              && CleanRow(migs[k], After(e, migs, s0, evs).db.rows[migs[k].version])
  {
    var i := CrashSafe(e, migs, s0, evs);
  }

  // ----- durable rows only move forward ---------------------------------------------

  predicate RowLe(r: Row, r': Row) {
    r'.content == r.content && r'.count == r.count && r.last <= r'.last && (!r.dirty ==> r' == r)
  }

  predicate RowsLe(rows: map<string, Row>, rows': map<string, Row>) {
    forall v :: v in rows ==> v in rows' && RowLe(rows[v], rows'[v])
  }

  lemma ExecForward<S(!new)>(e: Server<S>, migs: seq<Migration>, st: State<S>, ev: Event)
    ensures RowsLe(st.db.rows, Exec(e, migs, st, ev).db.rows)
  {
  }

  /** No cursor ever moves back and an applied migration is never touched again. */
  lemma {:induction false} RowsForward<S(!new)>(e: Server<S>, migs: seq<Migration>, s0: S, evs: seq<Event>, j: nat)
    requires j <= |evs|
    ensures RowsLe(After(e, migs, s0, evs[..j]).db.rows, After(e, migs, s0, evs).db.rows)
    decreases |evs|
  {
    if j == |evs| {
      assert evs[..j] == evs;
    } else {
      var front := evs[..|evs| - 1];
      assert front[..j] == evs[..j];
      RowsForward(e, migs, s0, front, j);
      ExecForward(e, migs, After(e, migs, s0, front), evs[|evs| - 1]);
    }
  }
}
