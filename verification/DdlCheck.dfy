/** ddlAlreadyApplied on ALTER TABLE: what it reports before and after the statement
    ran, and for which statements a crashed migration can therefore be resumed. */
module DdlCheck {
  import opened Decimal

  /** A primary key stands for all that the check never looks at. */
  datatype Kind = Column | Index | Check | ForeignKey | Primary

  datatype Obj = Obj(kind: Kind, name: string)

  datatype Def = Def(unique: bool, text: string)

  type Table = map<Obj, Def>

  datatype Clause = Add(obj: Obj, def: Def) | Drop(obj: Obj) | Modify(obj: Obj, def: Def)

  // ----- the server ------------------------------------------------------------------

  predicate Drops(a: seq<Clause>, o: Obj) { Drop(o) in a }

  predicate Adds(a: seq<Clause>, o: Obj) { exists c :: c in a && c.Add? && c.obj == o }

  /** The server refuses to drop what is missing, to add what is there and stays, and
      to modify what is missing or goes. */
  predicate Executable(t: Table, a: seq<Clause>) {
    && (forall c :: c in a ==> ClauseOk(t, a, c))
    && (forall i, j :: 0 <= i < j < |a| && a[i].Add? && a[j].Add? ==> a[i].obj != a[j].obj)
  }

  predicate ClauseOk(t: Table, a: seq<Clause>, c: Clause) {
    match c
    case Drop(o) => o in t
    case Add(o, _) => o in t ==> Drops(a, o)
    case Modify(o, _) => o in t && !Drops(a, o)
  }

  function Build(t: Table, a: seq<Clause>): Table {
    if a == [] then t else
      var (front, c) := (Build(t, a[..|a| - 1]), a[|a| - 1]);
      if c.Drop? then front else front[c.obj := c.def]
  }

  /** All drops refer to the table as it was. */
  function Exec(t: Table, a: seq<Clause>): Table { Build(t - (set c | c in a && c.Drop? :: c.obj), a) }

  // ----- the check ----------------------------------------------------------------------

  /** A dropped name that a constraint of this statement takes over. */
  predicate TakenOver(a: seq<Clause>, name: string) { Adds(a, Obj(Check, name)) || Adds(a, Obj(ForeignKey, name)) }

  /** Whether the check looks at a clause. */
  predicate Looks(a: seq<Clause>, c: Clause) {
    match c
    case Add(o, _) => o.kind != Primary
    case Drop(o) => o.kind == Column || o.kind == ForeignKey || (o.kind == Check && !TakenOver(a, o.name))
    case Modify(_, _) => false
  }

  /** What it wants to see. */
  predicate Seen(t: Table, c: Clause) {
    match c
    case Add(o, def) => o in t && (o.kind == Index ==> t[o].unique == def.unique)
    case Drop(o) => o !in t
    case Modify(_, _) => true
  }

  predicate Applied(t: Table, a: seq<Clause>) {
    (exists c :: c in a && Looks(a, c)) && forall c :: c in a && Looks(a, c) ==> Seen(t, c)
  }

  /** The clauses one pattern finds, in order. */
  function Found(a: seq<Clause>, add: bool, kind: Kind): (f: seq<Clause>)
    ensures forall c :: c in f <==> c in a && (c.Add? || c.Drop?) && c.Add? == add && c.obj.kind == kind
  {
    if a == [] then [] else
      var (front, c) := (Found(a[..|a| - 1], add, kind), a[|a| - 1]);
      if (c.Add? || c.Drop?) && c.Add? == add && c.obj.kind == kind then front + [c] else front
  }

  /** The matches of the first loops, one pattern after the other. */
  function Wanted(a: seq<Clause>): seq<Clause> {
    Found(a, false, Column) + Found(a, false, ForeignKey) + Found(a, true, Column) + Found(a, true, Index)
    + Found(a, true, Check) + Found(a, true, ForeignKey)
  }

  lemma WantedAre(a: seq<Clause>, c: Clause)
    ensures c in a && Looks(a, c) <==>
              c in Wanted(a) || (c in Found(a, false, Check) && !TakenOver(a, c.obj.name))
  {
    hide Found, TakenOver;
  }

  /** Looks for every wanted object in turn, then for checks that should be gone. */
  method DdlAlreadyApplied(t: Table, a: seq<Clause>) returns (applied: bool)
    ensures applied <==> Applied(t, a)
  {
    hide Seen, Looks, Wanted, TakenOver;
    var checks, wanted := 0, Wanted(a);
    forall c ensures c in a && Looks(a, c) <==> c in wanted || (c in Found(a, false, Check) && !TakenOver(a, c.obj.name)) {
      WantedAre(a, c);
    }
    for i := 0 to |wanted|
      invariant checks == i && forall c :: c in wanted[..i] ==> Seen(t, c)
    {
      checks := checks + 1;
      assert wanted[i] in wanted;
      if !Seen(t, wanted[i]) { return false; }
    }
    var dropped := Found(a, false, Check);
    for i := 0 to |dropped|
      invariant checks >= |wanted| && forall c :: c in dropped[..i] && !TakenOver(a, c.obj.name) ==> Seen(t, c)
      invariant checks > |wanted| <==> exists c :: c in dropped[..i] && !TakenOver(a, c.obj.name)
    {
      assert dropped[..i + 1] == dropped[..i] + [dropped[i]];
      if TakenOver(a, dropped[i].obj.name) { continue; }
      checks := checks + 1;
      assert dropped[i] in dropped;
      if !Seen(t, dropped[i]) { return false; }
    }
    assert wanted[..|wanted|] == wanted && dropped[..|dropped|] == dropped;
    applied := checks > 0;
    assert wanted != [] ==> wanted[0] in wanted;
  }

  // ----- what executing does ---------------------------------------------------------------

  lemma {:induction false} BuildAt(t: Table, a: seq<Clause>, o: Obj)
    ensures o in Build(t, a) <==> o in t || exists c :: c in a && !c.Drop? && c.obj == o
    ensures (forall c :: c in a && !c.Drop? ==> c.obj != o) && o in t ==> Build(t, a)[o] == t[o]
  {
    if a != [] {
      var front, c := a[..|a| - 1], a[|a| - 1];
      BuildAt(t, front, o);
      assert a == front + [c];
    }
  }

  /** The last clause that sets an object decides its definition. */
  lemma {:induction false} BuildAdded(t: Table, a: seq<Clause>, i: nat)
    requires i < |a| && !a[i].Drop? && forall j :: i < j < |a| && !a[j].Drop? ==> a[j].obj != a[i].obj
    ensures a[i].obj in Build(t, a) && Build(t, a)[a[i].obj] == a[i].def
  {
    if i < |a| - 1 { BuildAdded(t, a[..|a| - 1], i); }
  }

  /** After the statement an object is there exactly when it was and was not dropped, or
      was added; and an added one is as it was added. */
  lemma ExecAt(t: Table, a: seq<Clause>, o: Obj)
    requires Executable(t, a)
    ensures o in Exec(t, a) <==> (o in t && !Drops(a, o)) || Adds(a, o)
    ensures forall c :: c in a && c.Add? && c.obj == o ==> o in Exec(t, a) && Exec(t, a)[o] == c.def
  {
    var base := t - (set c | c in a && c.Drop? :: c.obj);
    BuildAt(base, a, o);
    assert o in base <==> o in t && !Drops(a, o);
    forall c | c in a && !c.Drop? && c.obj == o ensures ClauseOk(t, a, c) {}
    forall c | c in a && c.Add? && c.obj == o ensures o in Exec(t, a) && Exec(t, a)[o] == c.def {
      var i :| 0 <= i < |a| && a[i] == c;
      forall j | i < j < |a| && !a[j].Drop? ensures a[j].obj != o { assert ClauseOk(t, a, a[j]) && ClauseOk(t, a, a[i]); }
      BuildAdded(base, a, i);
    }
  }

  // ----- what the check reports ---------------------------------------------------------------

  /** A column or foreign key dropped and added again under its name. */
  predicate Replaces(a: seq<Clause>) {
    exists c :: c in a && c.Drop? && (c.obj.kind == Column || c.obj.kind == ForeignKey) && Adds(a, c.obj)
  }

  /** After the statement ran the check reports it exactly when it looks at some clause
      and no column or foreign key was replaced under its name. */
  lemma ReportedAfterExactly(t: Table, a: seq<Clause>)
    requires Executable(t, a)
    ensures Applied(Exec(t, a), a) <==> (exists c :: c in a && Looks(a, c)) && !Replaces(a)
  {
    var after := Exec(t, a);
    forall c | c in a && Looks(a, c)
      ensures Seen(after, c) <==> !(c.Drop? && (c.obj.kind == Column || c.obj.kind == ForeignKey) && Adds(a, c.obj))
    {
      ExecAt(t, a, c.obj);
    }
    hide Exec, Executable, Seen;
    if c :| c in a && c.Drop? && (c.obj.kind == Column || c.obj.kind == ForeignKey) && Adds(a, c.obj) {
      assert Looks(a, c) && !Seen(after, c);
    }
  }

  /** A clause that leaves the check nothing to tell the old object from the new by. */
  predicate Swap(t: Table, a: seq<Clause>, c: Clause) {
    match c
    case Add(o, def) =>
      || o.kind == Primary
      || (o.kind == Check && Drops(a, o))
      || (o.kind == Index && Drops(a, o) && o in t && t[o].unique == def.unique)
    case Drop(o) => o.kind == Primary || o.kind == Index || (o.kind == Check && TakenOver(a, o.name))
    case Modify(_, _) => true
  }

  /** Before the statement has run the check reports it exactly when it looks at some
      clause and all it could see are checks, or indexes of unchanged uniqueness,
      swapped under their names. */
  lemma ReportedBeforeExactly(t: Table, a: seq<Clause>)
    requires Executable(t, a)
    ensures Applied(t, a) <==> (exists c :: c in a && Looks(a, c)) && forall c :: c in a ==> Swap(t, a, c)
  {
    if Applied(t, a) {
      forall c | c in a ensures Swap(t, a, c) { SeenIsSwap(t, a, c); }
    } else if forall c :: c in a ==> Swap(t, a, c) {
      forall c | c in a && Looks(a, c) ensures Seen(t, c) { SwapIsSeen(t, a, c); }
    }
  }

  lemma SeenIsSwap(t: Table, a: seq<Clause>, c: Clause)
    requires Executable(t, a) && c in a && forall c :: c in a && Looks(a, c) ==> Seen(t, c)
    ensures Swap(t, a, c)
  {
    assert ClauseOk(t, a, c);
    if c.Add? && Looks(a, c) {
      assert Drop(c.obj) in a;
      assert c.obj.kind == Column || c.obj.kind == ForeignKey ==> Looks(a, Drop(c.obj));
    }
  }

  lemma SwapIsSeen(t: Table, a: seq<Clause>, c: Clause)
    requires Executable(t, a) && c in a && Swap(t, a, c) && Looks(a, c)
    ensures Seen(t, c)
  {
    if c.Add? { assert ClauseOk(t, a, Drop(c.obj)); }
  }

  /** A statement that only adds columns, indexes, checks or foreign keys is reported after
      it ran and not before. */
  lemma AddsAreReported(t: Table, a: seq<Clause>)
    requires Executable(t, a) && a != []
    requires forall c :: c in a ==> c.Add? && c.obj.kind in [Column, Index, Check, ForeignKey]
    ensures !Applied(t, a) && Applied(Exec(t, a), a)
  {
    hide Exec, Executable, Applied;
    assert a[0] in a && Looks(a, a[0]) && !Swap(t, a, a[0]);
    ReportedAfterExactly(t, a);
    ReportedBeforeExactly(t, a);
  }

  /** So is one that only drops columns, foreign keys or checks. */
  lemma DropsAreReported(t: Table, a: seq<Clause>)
    requires Executable(t, a) && a != []
    requires forall c :: c in a ==> c.Drop? && c.obj.kind in [Column, ForeignKey, Check]
    ensures !Applied(t, a) && Applied(Exec(t, a), a)
  {
    hide Exec, Executable, Applied;
    assert a[0] in a && Looks(a, a[0]) && !Swap(t, a, a[0]);
    ReportedAfterExactly(t, a);
    ReportedBeforeExactly(t, a);
  }

  // ----- skipped and stuck statements -----------------------------------------------------------

  /** The runner's effect on a statement; None when the server refuses it. */
  function Effect(t: Table, a: seq<Clause>): Option<Table> {
    if Applied(t, a) then Some(t) else if Executable(t, a) then Some(Exec(t, a)) else None
  }

  /** A statement reported before it ever ran is never run: whatever it was to define
      anew keeps its old definition. */
  lemma SwapIsSkipped(t: Table, a: seq<Clause>, c: Clause)
    requires Executable(t, a) && Applied(t, a) && c in a && c.Add? && c.obj in t && t[c.obj] != c.def
    ensures Effect(t, a) == Some(t) && Exec(t, a) != t
    ensures c.obj in Exec(t, a) && Exec(t, a)[c.obj] == c.def
  {
    ExecAt(t, a, c.obj);
  }

  /** Adds again exactly what it drops. */
  predicate Balanced(a: seq<Clause>) {
    forall c :: c in a ==> match c
                           case Drop(o) => Adds(a, o)
                           case Add(o, _) => Drops(a, o)
                           case Modify(_, _) => true
  }

  lemma AgainExecutable(t: Table, a: seq<Clause>)
    requires Executable(t, a)
    ensures Executable(Exec(t, a), a) <==> Balanced(a)
  {
    var after := Exec(t, a);
    forall c | c in a
      ensures ClauseOk(after, a, c) <==> match c case Drop(o) => Adds(a, o) case Add(o, _) => Drops(a, o) case Modify(_, _) => true
    {
      ExecAt(t, a, c.obj);
      assert ClauseOk(t, a, c);
    }
    hide Exec, ClauseOk;
  }

  lemma {:induction false} BuildSettles(t: Table, u: Table, a: seq<Clause>)
    requires forall o :: o in t && o in u && !(exists c :: c in a && !c.Drop? && c.obj == o) ==> t[o] == u[o]
    requires forall o :: (o in t <==> o in u) || exists c :: c in a && !c.Drop? && c.obj == o
    ensures Build(t, a) == Build(u, a)
  {
    forall o ensures o in Build(t, a) <==> o in Build(u, a) { BuildAt(t, a, o); BuildAt(u, a, o); }
    forall o | o in Build(t, a) ensures Build(t, a)[o] == Build(u, a)[o] {
      BuildAt(t, a, o);
      BuildAt(u, a, o);
      if c :| c in a && !c.Drop? && c.obj == o {
        var i := LastSetter(a, o);
        BuildAdded(t, a, i);
        BuildAdded(u, a, i);
      }
    }
  }

  lemma {:induction false} LastSetter(a: seq<Clause>, o: Obj) returns (i: nat)
    requires exists c :: c in a && !c.Drop? && c.obj == o
    ensures i < |a| && !a[i].Drop? && a[i].obj == o && forall j :: i < j < |a| && !a[j].Drop? ==> a[j].obj != o
  {
    var front, last := a[..|a| - 1], a[|a| - 1];
    if !last.Drop? && last.obj == o {
      i := |a| - 1;
    } else {
      assert a == front + [last];
      i := LastSetter(front, o);
    }
  }

  /** A balanced statement run twice is one run once. */
  lemma BalancedSettles(t: Table, a: seq<Clause>)
    requires Executable(t, a) && Balanced(a)
    ensures Exec(Exec(t, a), a) == Exec(t, a)
  {
    var gone := set c | c in a && c.Drop? :: c.obj;
    var once := Exec(t, a);
    forall o ensures (o in once - gone <==> o in t - gone) || exists c :: c in a && !c.Drop? && c.obj == o {
      ExecAt(t, a, o);
      assert o in gone <==> Drops(a, o);
    }
    forall o | o in once - gone && o in t - gone && !(exists c :: c in a && !c.Drop? && c.obj == o)
      ensures (once - gone)[o] == (t - gone)[o]
    {
      BuildAt(t - gone, a, o);
    }
    BuildSettles(once - gone, t - gone, a);
  }

  /** A crash after the statement ran but before it was recorded can be resumed exactly
      when the check reports the statement or repeating it changes nothing, because it
      adds again all that it drops and drops all that it adds. Every other statement is
      refused by the server in every later run. */
  lemma ResumesExactly(t: Table, a: seq<Clause>)
    requires Executable(t, a)
    ensures Effect(Exec(t, a), a) == Some(Exec(t, a)) <==>
              ((exists c :: c in a && Looks(a, c)) && !Replaces(a)) || Balanced(a)
    ensures Effect(Exec(t, a), a) != Some(Exec(t, a)) ==> Effect(Exec(t, a), a) == None
  {
    hide Applied, Exec, Executable, Balanced, Replaces, Looks;
    ReportedAfterExactly(t, a);
    AgainExecutable(t, a);
    if Balanced(a) { BalancedSettles(t, a); }
  }

  // ----- examples -----------------------------------------------------------------------------------

  /** A compound statement that drops a column besides swapping an index: not reported
      before it ran, reported after. */
  lemma CompoundIsToldApart(t: Table, column: string, index: string, def: Def)
    requires Obj(Column, column) in t && Obj(Index, index) in t
    ensures var a := [Drop(Obj(Index, index)), Drop(Obj(Column, column)), Add(Obj(Index, index), def)];
            Executable(t, a) && !Applied(t, a) && Applied(Exec(t, a), a)
  {
    var a := [Drop(Obj(Index, index)), Drop(Obj(Column, column)), Add(Obj(Index, index), def)];
    assert a[0] in a && a[1] in a && a[2] in a;
    assert Looks(a, a[1]);
    ReportedBeforeExactly(t, a);
    ReportedAfterExactly(t, a);
  }

  /** Without the column, a new definition of an index of the same uniqueness is taken
      for the old one and never installed. */
  lemma IndexAloneIsSkipped(t: Table, index: string, def: Def)
    requires Obj(Index, index) in t && t[Obj(Index, index)].unique == def.unique && t[Obj(Index, index)] != def
    ensures var a := [Drop(Obj(Index, index)), Add(Obj(Index, index), def)];
            Executable(t, a) && Effect(t, a) == Some(t) && Exec(t, a) != t
  {
    var a := [Drop(Obj(Index, index)), Add(Obj(Index, index), def)];
    assert a[0] in a && a[1] in a;
    assert Looks(a, a[1]);
    ReportedBeforeExactly(t, a);
    SwapIsSkipped(t, a, a[1]);
  }

  /** A statement that only drops an index is run again after a crash and then refused. */
  lemma LoneDropIndexSticks(t: Table, index: string)
    requires Obj(Index, index) in t
    ensures var a := [Drop(Obj(Index, index))];
            Executable(t, a) && Effect(t, a) == Some(Exec(t, a)) && Effect(Exec(t, a), a) == None
  {
    var a := [Drop(Obj(Index, index))];
    assert a[0] in a && forall c :: c in a ==> c == a[0];
    ResumesExactly(t, a);
  }
}
