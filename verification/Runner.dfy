/** RunMigrations as the loop it is, over a database that it changes in place. */
module Runner {
  import opened Splitter
  import opened Migrate

  datatype Outcome = Applied | Stopped(error: Error)

  /** Migration i is under way, n of its statements are recorded, and the given pending
      mark is the stored one. */
  ghost predicate Midway<S(!new)>(e: Server<S>, migs: seq<Migration>, s0: S, db: Db<S>, i: nat, n: nat, mark: nat,
          markStmt: string) {
    && i < |migs| && Prefix(migs, db.rows, i) && SchemaOk(e, migs, s0, db, i)
    && migs[i].version in db.rows
    && var r := db.rows[migs[i].version];
       n == r.last <= |Stmts(migs[i])| && mark == r.pending && markStmt == r.pendingStmt
  }

  /** A run that has dealt with the first i migrations, g of which are applied. */
  ghost predicate Between<S(!new)>(e: Server<S>, migs: seq<Migration>, s0: S, db: Db<S>, states: map<string, Row>,
          i: nat, g: nat) {
    i <= g && Prefix(migs, db.rows, g) && SchemaOk(e, migs, s0, db, g) && LoadedFrom(migs, states, db.rows, i)
  }

  ghost predicate OnlyRow(before: map<string, Row>, after: map<string, Row>, v: string) {
    forall x :: x != v ==> (x in after <==> x in before) && (x in after ==> after[x] == before[x])
  }

  lemma MarkOk<S(!new)>(e: Server<S>, migs: seq<Migration>, s0: S, db: Db<S>, i: nat, n: nat, mark: nat,
          markStmt: string)
    requires DistinctVersions(migs) && Midway(e, migs, s0, db, i, n, mark, markStmt)
    requires n < |Stmts(migs[i])| && IsDdl(Stmts(migs[i])[n])
    ensures var v, stmt := migs[i].version, Stmts(migs[i])[n];
      && (mark == 0 || (mark == n + 1 && markStmt == stmt))
      && Markable(db.rows, v, n, stmt)
      && Midway(e, migs, s0, db.(rows := db.rows[v := db.rows[v].(pending := n + 1, pendingStmt := stmt)]), i, n, n + 1, stmt)
  {
  }

  lemma PersistOk<S(!new)>(e: Server<S>, migs: seq<Migration>, s0: S, db: Db<S>, i: nat, n: nat, mark: nat,
          markStmt: string)
    requires DistinctVersions(migs) && Repeatable(e, migs, s0) && Midway(e, migs, s0, db, i, n, mark, markStmt)
    requires n < |Stmts(migs[i])|
    ensures var v, stmt := migs[i].version, Stmts(migs[i])[n];
      && Persistable(db.rows, v, n)
      && Midway(e, migs, s0, Db(Effect(e, db.schema, stmt), db.rows[v := db.rows[v].(last := n + 1, pending := 0, pendingStmt := "")]),
                i, n + 1, 0, "")
  {
    EffectAdvances(e, migs, s0, db, i);
  }

  lemma BeginOk<S(!new)>(e: Server<S>, migs: seq<Migration>, s0: S, db: Db<S>, states: map<string, Row>, i: nat, g: nat)
    requires DistinctVersions(migs) && Between(e, migs, s0, db, states, i, g) && i < |migs|
    ensures var v := migs[i].version;
      && (v in states ==> states[v].content == migs[i].content && states[v].count == |Stmts(migs[i])|)
      && (v in states && !states[v].dirty ==> Between(e, migs, s0, db, states, i + 1, g))
      && (v in states && states[v].dirty ==>
            Midway(e, migs, s0, db, i, states[v].last, states[v].pending, states[v].pendingStmt))
      && (v !in states ==> v !in db.rows)
      && (v !in states ==>
            Midway(e, migs, s0, db.(rows := db.rows[v := Row(migs[i].content, true, |Stmts(migs[i])|, 0, 0, "")]), i, 0, 0, ""))
      && LoadedFrom(migs, states, db.rows, i + 1)
  {
    assert SameRow(states, db.rows, migs[i].version);
    assert Point(e, migs, i, 0, s0) == Base(e, migs, i, s0);
  }

  lemma EndOk<S(!new)>(e: Server<S>, migs: seq<Migration>, s0: S, db: Db<S>, states: map<string, Row>, i: nat)
    requires DistinctVersions(migs) && i < |migs| && LoadedFrom(migs, states, db.rows, i + 1)
    requires exists p, ps :: Midway(e, migs, s0, db, i, |Stmts(migs[i])|, p, ps)
    ensures Between(e, migs, s0, db.(rows := Finished(db.rows, migs[i].version)), states, i + 1, i + 1)
  {
    assert Base(e, migs, i + 1, s0) == Point(e, migs, i, |Stmts(migs[i])|, s0);
    assert i + 1 < |migs| ==> Point(e, migs, i + 1, 0, s0) == Base(e, migs, i + 1, s0);
  }

  lemma LoadedKept(migs: seq<Migration>, states: map<string, Row>, before: map<string, Row>, after: map<string, Row>,
          i: nat)
    requires DistinctVersions(migs) && i < |migs| && LoadedFrom(migs, states, before, i + 1)
    requires OnlyRow(before, after, migs[i].version)
    ensures LoadedFrom(migs, states, after, i + 1)
  {
    forall j | i + 1 <= j < |migs| ensures SameRow(states, after, migs[j].version) {
      assert SameRow(states, before, migs[j].version);
    }
  }

  lemma InRangeOf<S(!new)>(e: Server<S>, migs: seq<Migration>, s0: S, db: Db<S>, i: nat, n: nat, mark: nat,
          markStmt: string)
    requires Midway(e, migs, s0, db, i, n, mark, markStmt)
    ensures i < |migs| && migs[i].version in db.rows && n <= |Stmts(migs[i])|
  {
  }

  lemma StmtsAre(m: Migration)
    ensures Stmts(m) == Statements(m.content)
  {
  }

  /** What a crash can leave behind. */
  ghost predicate Resumable<S(!new)>(e: Server<S>, migs: seq<Migration>, s0: S, db: Db<S>) {
    exists g :: Prefix(migs, db.rows, g) && SchemaOk(e, migs, s0, db, g)
  }

  lemma MidwayResumable<S(!new)>(e: Server<S>, migs: seq<Migration>, s0: S, db: Db<S>, i: nat, n: nat, mark: nat,
          markStmt: string)
    requires Midway(e, migs, s0, db, i, n, mark, markStmt)
    ensures Resumable(e, migs, s0, db)
  {
  }

  lemma BetweenResumable<S(!new)>(e: Server<S>, migs: seq<Migration>, s0: S, db: Db<S>, states: map<string, Row>,
          i: nat, g: nat)
    requires Between(e, migs, s0, db, states, i, g)
    ensures Resumable(e, migs, s0, db)
    ensures i == |migs| ==> Prefix(migs, db.rows, |migs|) && db.schema == Base(e, migs, |migs|, s0)
  {
  }

  // ----- when a run stops ---------------------------------------------------------------

  /** Statements n up to `end` of migration i are accepted: statement n in the schema as
      it stands, each later one where an uninterrupted run meets it. */
  ghost predicate AcceptsStmts<S(!new)>(e: Server<S>, migs: seq<Migration>, s0: S, schema: S, i: nat, n: nat, end: nat)
    requires i < |migs| && end <= |Stmts(migs[i])|
  {
    forall k :: n <= k < end ==>
      if k == n then Run(e, schema, Stmts(migs[i])[k]).Some? else AcceptedAt(e, migs, i, k, s0)
  }

  /** What is left of migration i from statement n on is accepted. */
  ghost predicate AcceptsRest<S(!new)>(e: Server<S>, migs: seq<Migration>, s0: S, schema: S, i: nat, n: nat)
    requires i < |migs|
  {
    AcceptsStmts(e, migs, s0, schema, i, n, |Stmts(migs[i])|)
  }

  lemma NoneAccepted<S(!new)>(e: Server<S>, migs: seq<Migration>, s0: S, schema: S, i: nat, n: nat)
    requires i < |migs| && n <= |Stmts(migs[i])|
    ensures AcceptsStmts(e, migs, s0, schema, i, n, n)
  {
  }

  /** Statement k is met in the schema `now`. */
  lemma AcceptsOneMore<S(!new)>(e: Server<S>, migs: seq<Migration>, s0: S, schema: S, i: nat, n: nat, k: nat, now: S)
    requires i < |migs| && n <= k < |Stmts(migs[i])| && AcceptsStmts(e, migs, s0, schema, i, n, k)
    requires now == if k == n then schema else Point(e, migs, i, k, s0)
    ensures AcceptsStmts(e, migs, s0, schema, i, n, k + 1) <==> Run(e, now, Stmts(migs[i])[k]).Some?
    ensures AcceptsRest(e, migs, s0, schema, i, n) ==> AcceptsStmts(e, migs, s0, schema, i, n, k + 1)
  {
    hide Run, Point, Stmts;
    assert k > n ==> (AcceptedAt(e, migs, i, k, s0) <==> Run(e, now, Stmts(migs[i])[k]).Some?);
  }

  /** Everything left to run of the migrations before `upTo` is accepted, when the first
      i of them are applied. */
  ghost predicate AcceptsUpTo<S(!new)>(e: Server<S>, migs: seq<Migration>, s0: S, db: Db<S>, i: nat, upTo: nat)
    requires upTo <= |migs|
  {
    && (i < upTo ==> AcceptsRest(e, migs, s0, db.schema, i, Cursor(migs, db.rows, i)))
    && (forall k, n :: i < k < upTo && 0 <= n < |Stmts(migs[k])| ==> AcceptedAt(e, migs, k, n, s0))
  }

  /** The preflight of migration k refuses the schema an uninterrupted run has before it. */
  ghost predicate BaselineFails<S(!new)>(e: Server<S>, migs: seq<Migration>, s0: S, rows: map<string, Row>, k: nat)
    requires k < |migs|
  {
    migs[k].version == "0002" && "0002" !in rows && !e.baseline(Base(e, migs, k, s0))
  }

  /** The server refuses the statement at the stored cursor. */
  ghost predicate RefusedAtCursor<S(!new)>(e: Server<S>, migs: seq<Migration>, db: Db<S>, i: nat) {
    && i < |migs| && Prefix(migs, db.rows, i) && migs[i].version in db.rows
    && var n := db.rows[migs[i].version].last;
       n < |Stmts(migs[i])| && Run(e, db.schema, Stmts(migs[i])[n]).None?
  }

  /** The first `upTo` migrations can be dealt with from this state. */
  ghost predicate Clear<S(!new)>(e: Server<S>, migs: seq<Migration>, s0: S, db: Db<S>, i: nat, upTo: nat)
    requires upTo <= |migs|
  {
    && AcceptsUpTo(e, migs, s0, db, i, upTo)
    && forall k :: 0 <= k < upTo ==> !BaselineFails(e, migs, s0, db.rows, k)
  }

  lemma MidwayAdvances<S(!new)>(e: Server<S>, migs: seq<Migration>, s0: S, db: Db<S>, i: nat, n: nat, mark: nat,
          markStmt: string)
    requires Repeatable(e, migs, s0) && Midway(e, migs, s0, db, i, n, mark, markStmt) && n < |Stmts(migs[i])|
    ensures Effect(e, db.schema, Stmts(migs[i])[n]) == Point(e, migs, i, n + 1, s0)
    ensures Prefix(migs, db.rows, i) && db.rows[migs[i].version].last == n
  {
    EffectAdvances(e, migs, s0, db, i);
  }

  lemma AppliedHasRow<S(!new)>(e: Server<S>, migs: seq<Migration>, s0: S, db: Db<S>, states: map<string, Row>, i: nat, g: nat)
    requires Between(e, migs, s0, db, states, i, g) && i < |migs|
    ensures i < g ==> migs[i].version in states && !states[migs[i].version].dirty && migs[i].version in db.rows
    ensures i == g && migs[i].version in states ==>
              states[migs[i].version].dirty && states[migs[i].version].last == Cursor(migs, db.rows, i)
    ensures i == g && migs[i].version !in states ==>
              migs[i].version !in db.rows && Cursor(migs, db.rows, i) == 0 && db.schema == Base(e, migs, i, s0)
  {
    assert SameRow(states, db.rows, migs[i].version);
    assert Point(e, migs, i, 0, s0) == Base(e, migs, i, s0);
  }

  lemma NothingYet<S(!new)>(e: Server<S>, migs: seq<Migration>, s0: S, db: Db<S>, i0: nat)
    ensures Clear(e, migs, s0, db, i0, 0)
  {
  }

  lemma AcceptsLess<S(!new)>(e: Server<S>, migs: seq<Migration>, s0: S, db: Db<S>, i0: nat, a: nat, b: nat)
    requires a <= b <= |migs|
    ensures AcceptsUpTo(e, migs, s0, db, i0, b) ==> AcceptsUpTo(e, migs, s0, db, i0, a)
    ensures Clear(e, migs, s0, db, i0, b) ==> Clear(e, migs, s0, db, i0, a)
  {
    hide AcceptsRest, AcceptedAt, BaselineFails;
  }

  /** A run that started at `db` and has dealt with i migrations meets the next one as an
      uninterrupted run does, or where it started. */
  lemma MeetsNext<S(!new)>(e: Server<S>, migs: seq<Migration>, s0: S, db: Db<S>, was: Db<S>, i0: nat, i: nat)
    requires i < |migs| && Prefix(migs, db.rows, i0) && SchemaOk(e, migs, s0, db, i0)
    requires i <= i0 ==> was == db
    requires i > i0 ==> Between(e, migs, s0, was, db.rows, i, i)
    ensures BaselineFails(e, migs, s0, was.rows, i) <==> BaselineFails(e, migs, s0, db.rows, i)
    ensures i < i0 ==> !BaselineFails(e, migs, s0, db.rows, i)
    ensures i > i0 ==> (AcceptsRest(e, migs, s0, was.schema, i, Cursor(migs, was.rows, i)) <==>
                          forall n :: 0 <= n < |Stmts(migs[i])| ==> AcceptedAt(e, migs, i, n, s0))
  {
    if i > i0 {
      assert SameRow(db.rows, was.rows, migs[i].version);
      assert Point(e, migs, i, 0, s0) == Base(e, migs, i, s0);
      if 0 < |Stmts(migs[i])| { assert AcceptedAt(e, migs, i, 0, s0) <==> Run(e, was.schema, Stmts(migs[i])[0]).Some?; }
    }
  }

  lemma OneMore<S(!new)>(e: Server<S>, migs: seq<Migration>, s0: S, db: Db<S>, was: Db<S>, i0: nat, i: nat)
    requires i < |migs| && Prefix(migs, db.rows, i0) && SchemaOk(e, migs, s0, db, i0)
    requires i <= i0 ==> was == db
    requires i > i0 ==> Between(e, migs, s0, was, db.rows, i, i)
    requires Clear(e, migs, s0, db, i0, i)
    ensures BaselineFails(e, migs, s0, was.rows, i) <==> BaselineFails(e, migs, s0, db.rows, i)
    ensures i < i0 ==> !BaselineFails(e, migs, s0, db.rows, i)
    ensures AcceptsUpTo(e, migs, s0, db, i0, i + 1) <==>
              (i >= i0 ==> AcceptsRest(e, migs, s0, was.schema, i, Cursor(migs, was.rows, i)))
    ensures Clear(e, migs, s0, db, i0, i + 1) <==>
              AcceptsUpTo(e, migs, s0, db, i0, i + 1) && !BaselineFails(e, migs, s0, db.rows, i)
  {
    MeetsNext(e, migs, s0, db, was, i0, i);
    hide AcceptsRest, AcceptedAt, BaselineFails, Prefix, SchemaOk, Between, Stmts;
  }

  /** Where the loop stops decides what its outcome says of the whole run. */
  lemma StopDecides<S(!new)>(e: Server<S>, migs: seq<Migration>, s0: S, db: Db<S>, i0: nat, i: nat)
    requires i < |migs| && Clear(e, migs, s0, db, i0, i) && !Clear(e, migs, s0, db, i0, i + 1)
    requires Clear(e, migs, s0, db, i0, i + 1) <==>
               AcceptsUpTo(e, migs, s0, db, i0, i + 1) && !BaselineFails(e, migs, s0, db.rows, i)
    ensures !Clear(e, migs, s0, db, i0, |migs|)
    ensures (exists k :: 0 <= k < |migs| && BaselineFails(e, migs, s0, db.rows, k) && AcceptsUpTo(e, migs, s0, db, i0, k))
       <==> BaselineFails(e, migs, s0, db.rows, i)
  {
    hide AcceptsUpTo, BaselineFails;
    AcceptsLess(e, migs, s0, db, i0, i + 1, |migs|);
    if k :| 0 <= k < |migs| && BaselineFails(e, migs, s0, db.rows, k) && AcceptsUpTo(e, migs, s0, db, i0, k) {
      if k > i { AcceptsLess(e, migs, s0, db, i0, i + 1, k); }
    }
  }

  class Database<S(!new)> {
    var schema: S
    var rows: map<string, Row>

    constructor (s0: S)
      ensures schema == s0 && rows == map[]
    {
      schema := s0;
      rows := map[];
    }

    function Durable(): Db<S>
      reads this
    {
      Db(schema, rows)
    }

    /** The conditional UPDATE of the pending mark; false when no row matched. */
    method MarkPending(v: string, n: nat, stmt: string) returns (marked: bool)
      modifies this`rows
      ensures marked == Markable(old(rows), v, n, stmt)
      ensures rows == if marked then old(rows)[v := old(rows)[v].(pending := n + 1, pendingStmt := stmt)] else old(rows)
    {
      marked := v in rows && rows[v].dirty && rows[v].last == n
                && (rows[v].pending == 0 || (rows[v].pending == n + 1 && rows[v].pendingStmt == stmt));
      if marked {
        rows := rows[v := rows[v].(pending := n + 1, pendingStmt := stmt)];
      }
    }

    /** The conditional UPDATE of the cursor; false unless exactly one row matched. */
    method PersistProgress(v: string, n: nat) returns (persisted: bool)
      modifies this`rows
      ensures persisted == Persistable(old(rows), v, n)
      ensures rows == if persisted then old(rows)[v := old(rows)[v].(last := n + 1, pending := 0, pendingStmt := "")]
                      else old(rows)
    {
      persisted := v in rows && rows[v].dirty && rows[v].last == n;
      if persisted {
        rows := rows[v := rows[v].(last := n + 1, pending := 0, pendingStmt := "")];
      }
    }

    method MarkApplied(v: string)
      modifies this`rows
      ensures rows == Finished(old(rows), v)
    {
      if v in rows && rows[v].dirty && rows[v].last == rows[v].count {
        rows := rows[v := rows[v].(dirty := false)];
      }
    }

    /** One statement: a DDL statement is marked, then it is applied and recorded. */
    method RunNext(e: Server<S>, migs: seq<Migration>, i: nat, index: nat, mark: nat, markStmt: string, stmt: string,
            ghost s0: S)
      returns (r: Outcome)
      requires DistinctVersions(migs) && Repeatable(e, migs, s0)
      requires Midway(e, migs, s0, Durable(), i, index, mark, markStmt)
      requires index < |Stmts(migs[i])| && stmt == Stmts(migs[i])[index]
      modifies this
      ensures r == if Run(e, old(schema), stmt).Some? then Applied else Stopped(Refused)
      ensures r == Applied ==>
        Midway(e, migs, s0, Durable(), i, index + 1, 0, "") && schema == Point(e, migs, i, index + 1, s0)
      ensures r != Applied ==> Resumable(e, migs, s0, Durable()) && RefusedAtCursor(e, migs, Durable(), i)
      ensures OnlyRow(old(rows), rows, migs[i].version)
    {
      hide Prefix, SchemaOk, Repeatable, Run, IsDdl, Midway, Resumable, Stmts, RunStmts, Base;
      InRangeOf(e, migs, s0, Durable(), i, index, mark, markStmt);
      var v := migs[i].version;
      ghost var stored, storedStmt := mark, markStmt;
      if IsDdl(stmt) {
        MarkOk(e, migs, s0, Durable(), i, index, mark, markStmt);
        if mark != 0 && (mark != index + 1 || markStmt != stmt) { return Stopped(Fingerprint); }
        var marked := MarkPending(v, index, stmt);
        if !marked { return Stopped(NotPersisted); }
        stored, storedStmt := index + 1, stmt;
      }
      PersistOk(e, migs, s0, Durable(), i, index, stored, storedStmt);
      MidwayAdvances(e, migs, s0, Durable(), i, index, stored, storedStmt);
      MidwayResumable(e, migs, s0, Durable(), i, index, stored, storedStmt);
      var accepted := RunStatement(e, stmt);
      if !accepted { return Stopped(Refused); }
      var persisted := PersistProgress(v, index);
      if !persisted { return Stopped(NotPersisted); }
      r := Applied;
    }

    /** The statements of migration i from `start` on, each recorded before the next. */
    method RunStatements(e: Server<S>, migs: seq<Migration>, i: nat, start: nat, pending: nat, pendingStmt: string,
            ghost s0: S)
      returns (r: Outcome)
      requires DistinctVersions(migs) && Repeatable(e, migs, s0)
      requires Midway(e, migs, s0, Durable(), i, start, pending, pendingStmt)
      modifies this
      ensures r == Applied || r == Stopped(Refused)
      ensures r == Applied ==> exists p, ps :: Midway(e, migs, s0, Durable(), i, |Stmts(migs[i])|, p, ps)
      ensures r != Applied ==> Resumable(e, migs, s0, Durable()) && RefusedAtCursor(e, migs, Durable(), i)
      ensures r == Applied <==> AcceptsRest(e, migs, s0, old(schema), i, start)
      ensures OnlyRow(old(rows), rows, migs[i].version)
    {
      hide Prefix, SchemaOk, Repeatable, Run, Midway, Resumable, RefusedAtCursor, AcceptsStmts, Base, RunStmts;
      InRangeOf(e, migs, s0, Durable(), i, start, pending, pendingStmt);
      var stmts := SplitStatements(migs[i].content);
      var index, mark, markStmt := start, pending, pendingStmt;
      NoneAccepted(e, migs, s0, schema, i, start);
      while index < |stmts|
        invariant Midway(e, migs, s0, Durable(), i, index, mark, markStmt) && start <= index <= |stmts|
        invariant OnlyRow(old(rows), rows, migs[i].version)
        invariant schema == if index == start then old(schema) else Point(e, migs, i, index, s0)
        invariant AcceptsStmts(e, migs, s0, old(schema), i, start, index)
      {
        AcceptsOneMore(e, migs, s0, old(schema), i, start, index, schema);
        r := RunNext(e, migs, i, index, mark, markStmt, stmts[index], s0);
        if r != Applied { return; }
        index, mark, markStmt := index + 1, 0, "";
      }
      return Applied;
    }

    /** A DDL statement only when the check does not report it applied; a statement
        that the server refuses leaves the schema alone. */
    method RunStatement(e: Server<S>, stmt: string) returns (accepted: bool)
      modifies this`schema
      ensures accepted <==> Run(e, old(schema), stmt).Some?
      ensures schema == Effect(e, old(schema), stmt)
    {
      if IsDdl(stmt) {
        var applied := e.applied(schema, stmt);
        if applied { return true; }
      }
      var result := e.exec(schema, stmt);
      if result.None? { return false; }
      schema := result.value;
      accepted := true;
    }

    /** One pass of the migration loop. */
    method RunOne(e: Server<S>, migs: seq<Migration>, states: map<string, Row>, i: nat, ghost s0: S, ghost g: nat)
      returns (r: Outcome, ghost g': nat)
      requires DistinctVersions(migs) && Repeatable(e, migs, s0) && i < |migs|
      requires Between(e, migs, s0, Durable(), states, i, g)
      modifies this
      ensures r == Applied || r == Stopped(Baseline) || r == Stopped(Refused)
      ensures r == Applied ==> Between(e, migs, s0, Durable(), states, i + 1, g')
      ensures r != Applied ==> Resumable(e, migs, s0, Durable())
      ensures i < g ==> r == Applied && g' == g && Durable() == old(Durable())
      ensures i == g && r == Applied ==> g' == i + 1
      ensures i == g ==> (r == Stopped(Baseline) <==> BaselineFails(e, migs, s0, old(rows), i))
      ensures i == g ==>
        (r == Applied <==> (!BaselineFails(e, migs, s0, old(rows), i)
                            && AcceptsRest(e, migs, s0, old(schema), i, Cursor(migs, old(rows), i))))
      ensures r == Stopped(Refused) ==> RefusedAtCursor(e, migs, Durable(), i)
      ensures r == Stopped(Baseline) ==> Durable() == old(Durable())
    {
      hide Prefix, SchemaOk, Repeatable, Midway, Between, LoadedFrom, Finished, Stmts, Base, Resumable, Statements,
           AcceptsRest, RefusedAtCursor, Cursor;
      g' := g;
      AppliedHasRow(e, migs, s0, Durable(), states, i, g);
      var m := migs[i];
      var stmts := SplitStatements(m.content);
      assert Stmts(m) == stmts by { StmtsAre(m); }
      var known := m.version in states;
      ghost var before := rows;
      BeginOk(e, migs, s0, Durable(), states, i, g);
      if known && states[m.version].content != m.content { return Stopped(ChecksumMismatch), g'; }
      if known && !states[m.version].dirty { return Applied, g'; }
      var start, pending, pendingStmt := 0, 0, "";
      if !known {
        if m.version == "0002" {
          if !e.baseline(schema) {
            BetweenResumable(e, migs, s0, Durable(), states, i, g);
            return Stopped(Baseline), g';
          }
        }
        if m.version in rows { return Stopped(InsertFailed), g'; }
        rows := rows[m.version := Row(m.content, true, |stmts|, 0, 0, "")];
      } else if states[m.version].count != |stmts| {
        return Stopped(CountChanged), g';
      } else {
        start, pending, pendingStmt := states[m.version].last, states[m.version].pending, states[m.version].pendingStmt;
      }
      r := RunStatements(e, migs, i, start, pending, pendingStmt, s0);
      if r != Applied { return; }
      LoadedKept(migs, states, before, rows, i);
      EndOk(e, migs, s0, Durable(), states, i);
      MarkApplied(m.version);
      g' := i + 1;
    }

    /** From any durable state that a crash can leave, a run either applies everything,
        ending in the schema of an uninterrupted run, or stops in the baseline preflight or
        on a refused statement with the durable state still resumable. It applies exactly
        when the server accepts all that is left and the preflight passes, and stops in the
        preflight exactly when that fails behind accepted statements. */
    method RunMigrations(e: Server<S>, migs: seq<Migration>, ghost s0: S, ghost i0: nat) returns (r: Outcome)
      requires DistinctVersions(migs) && Repeatable(e, migs, s0)
      requires Prefix(migs, rows, i0) && SchemaOk(e, migs, s0, Durable(), i0)
      modifies this
      ensures r == Applied || r == Stopped(Baseline) || r == Stopped(Refused)
      ensures r == Applied ==> Prefix(migs, rows, |migs|) && schema == Base(e, migs, |migs|, s0)
      ensures Resumable(e, migs, s0, Durable())
      ensures r == Applied <==> Clear(e, migs, s0, old(Durable()), i0, |migs|)
      ensures r == Stopped(Baseline) <==>
              exists k :: 0 <= k < |migs| && BaselineFails(e, migs, s0, old(rows), k) && AcceptsUpTo(e, migs, s0, old(Durable()), i0, k)
      ensures r == Stopped(Refused) ==> exists k :: RefusedAtCursor(e, migs, Durable(), k)
    {
      var states := rows;
      ghost var g: nat, db := i0, Durable();
      assert Between(e, migs, s0, Durable(), states, 0, g);
      hide Prefix, SchemaOk, Repeatable, Between, Base, Resumable, BaselineFails, RefusedAtCursor, AcceptsUpTo, AcceptsRest;
      NothingYet(e, migs, s0, db, i0);
      for i := 0 to |migs|
        invariant Between(e, migs, s0, Durable(), states, i, g) && Clear(e, migs, s0, db, i0, i)
        invariant if i <= i0 then g == i0 && Durable() == db else g == i
      {
        OneMore(e, migs, s0, db, Durable(), i0, i);
        r, g := RunOne(e, migs, states, i, s0, g);
        if r != Applied {
          StopDecides(e, migs, s0, db, i0, i);
          return;
        }
      }
      BetweenResumable(e, migs, s0, Durable(), states, |migs|, g);
      r := Applied;
    }
  }
}
