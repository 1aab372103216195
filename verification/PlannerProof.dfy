/** The planned program gives exactly the rows of the cross product that satisfy every clause. */
module PlannerProof {
  import opened VarGroups
  import opened Planner

  // ---------- cross product and filter ----------

  ghost function Answers(I: Interp, tables: seq<Table>, cs: seq<Clause>, e: Env): multiset<Env>
    decreases |tables|, 0
  {
    if tables == [] then if AllHold(I, cs, e) then multiset{e} else multiset{}
    else RowAnswers(I, tables[0], tables[0].rows, tables[1..], cs, e)
  }

  ghost function RowAnswers(I: Interp, t: Table, rows: seq<Row>, rest: seq<Table>, cs: seq<Clause>,
      e: Env): multiset<Env>
    decreases |rest|, 1 + |rows|
  {
    if rows == [] then multiset{} else
    Answers(I, rest, cs, Bind(e, t.vars, rows[0])) + RowAnswers(I, t, rows[1..], rest, cs, e)
  }

  function AllVars(tables: seq<Table>): set<Var> {
    if tables == [] then {} else VarsOf(tables[0]) + AllVars(tables[1..])
  }

  /** No variable belongs to two tables, or is bound already. */
  predicate Apart(tables: seq<Table>, bound: set<Var>) {
    tables == [] || (VarsOf(tables[0]) !! bound && Apart(tables[1..], bound + VarsOf(tables[0])))
  }

  lemma {:induction false} BoundKeys(vars: seq<Var>, row: Row)
    ensures Bound(vars, row).Keys == set v | v in vars
  {
    if vars != [] {
      var n := |vars| - 1;
      BoundKeys(vars[..n], row);
      assert vars == vars[..n] + [vars[n]];
    }
  }

  lemma BindKeys(e: Env, t: Table, row: Row)
    ensures Bind(e, t.vars, row).Keys == e.Keys + VarsOf(t)
  {
    BoundKeys(t.vars, row);
  }

  lemma BindCommutes(e: Env, t: Table, r: Row, u: Table, s: Row)
    requires VarsOf(t) !! VarsOf(u)
    ensures Bind(Bind(e, t.vars, r), u.vars, s) == Bind(Bind(e, u.vars, s), t.vars, r)
  {
    BoundKeys(t.vars, r);
    BoundKeys(u.vars, s);
    var one, two := Bind(Bind(e, t.vars, r), u.vars, s), Bind(Bind(e, u.vars, s), t.vars, r);
    assert one.Keys == two.Keys;
    forall v | v in one ensures one[v] == two[v] {
      assert !(v in VarsOf(t) && v in VarsOf(u));
    }
  }

  // ---------- the order of the tables does not matter ----------

  ghost function Nested(I: Interp, t: Table, rows: seq<Row>, u: Table, urows: seq<Row>, rest: seq<Table>,
      cs: seq<Clause>, e: Env): multiset<Env> {
    if rows == [] then multiset{} else
    RowAnswers(I, u, urows, rest, cs, Bind(e, t.vars, rows[0])) + Nested(I, t, rows[1..], u, urows, rest, cs, e)
  }

  lemma {:induction false} NestedColumn(I: Interp, t: Table, rows: seq<Row>, u: Table, urows: seq<Row>,
      rest: seq<Table>, cs: seq<Clause>, e: Env)
    requires VarsOf(t) !! VarsOf(u) && rows != []
    ensures Nested(I, u, urows, t, rows, rest, cs, e)
            == RowAnswers(I, u, urows, rest, cs, Bind(e, t.vars, rows[0])) + Nested(I, u, urows, t, rows[1..], rest,
                cs, e)
    decreases |urows|
  {
    if urows != [] {
      NestedColumn(I, t, rows, u, urows[1..], rest, cs, e);
      BindCommutes(e, t, rows[0], u, urows[0]);
    }
  }

  lemma {:induction false} NestedSwap(I: Interp, t: Table, rows: seq<Row>, u: Table, urows: seq<Row>,
      rest: seq<Table>, cs: seq<Clause>, e: Env)
    requires VarsOf(t) !! VarsOf(u)
    ensures Nested(I, t, rows, u, urows, rest, cs, e) == Nested(I, u, urows, t, rows, rest, cs, e)
    decreases |rows|
  {
    if rows == [] {
      NestedNone(I, u, urows, t, rest, cs, e);
    } else {
      NestedSwap(I, t, rows[1..], u, urows, rest, cs, e);
      NestedColumn(I, t, rows, u, urows, rest, cs, e);
    }
  }

  lemma {:induction false} NestedNone(I: Interp, u: Table, urows: seq<Row>, t: Table, rest: seq<Table>,
      cs: seq<Clause>, e: Env)
    ensures Nested(I, u, urows, t, [], rest, cs, e) == multiset{}
    decreases |urows|
  {
    if urows != [] { NestedNone(I, u, urows[1..], t, rest, cs, e); }
  }

  lemma {:induction false} ApartFrom(tables: seq<Table>, bound: set<Var>, i: nat)
    requires Apart(tables, bound) && i < |tables|
    ensures VarsOf(tables[i]) !! bound
    decreases i
  {
    if i > 0 { ApartFrom(tables[1..], bound + VarsOf(tables[0]), i - 1); }
  }

  /** Any table may be taken first. */
  lemma {:induction false} PickFirst(I: Interp, tables: seq<Table>, i: nat, cs: seq<Clause>, e: Env)
    requires i < |tables| && Apart(tables, e.Keys)
    ensures Answers(I, tables, cs, e) == RowAnswers(I, tables[i], tables[i].rows, Without(tables, i), cs, e)
    decreases i, 0
  {
    if i == 0 {
      assert Without(tables, 0) == tables[1..];
    } else {
      var t, u := tables[0], tables[i];
      var rest := Without(tables[1..], i - 1);
      assert Without(tables, i) == [t] + rest;
      ApartFrom(tables[1..], e.Keys + VarsOf(t), i - 1);
      InnerPick(I, t, tables[1..], i - 1, t.rows, cs, e);
      NestedSwap(I, t, t.rows, u, u.rows, rest, cs, e);
      OuterPick(I, u, u.rows, t, rest, cs, e);
    }
  }

  lemma {:induction false} InnerPick(I: Interp, t: Table, rest: seq<Table>, i: nat, rows: seq<Row>, cs: seq<Clause>,
      e: Env)
    requires i < |rest| && Apart(rest, e.Keys + VarsOf(t))
    ensures RowAnswers(I, t, rows, rest, cs, e) == Nested(I, t, rows, rest[i], rest[i].rows, Without(rest, i), cs, e)
    decreases i, 1 + |rows|
  {
    hide Apart, Answers, VarsOf;
    if rows != [] {
      InnerPick(I, t, rest, i, rows[1..], cs, e);
      BindKeys(e, t, rows[0]);
      PickFirst(I, rest, i, cs, Bind(e, t.vars, rows[0]));
    }
  }

  lemma {:induction false} OuterPick(I: Interp, u: Table, urows: seq<Row>, t: Table, rest: seq<Table>,
      cs: seq<Clause>, e: Env)
    ensures RowAnswers(I, u, urows, [t] + rest, cs, e) == Nested(I, u, urows, t, t.rows, rest, cs, e)
    decreases |urows|
  {
    if urows != [] {
      OuterPick(I, u, urows[1..], t, rest, cs, e);
      assert ([t] + rest)[1..] == rest;
    }
  }

  lemma {:induction false} ApartWithout(tables: seq<Table>, bound: set<Var>, i: nat)
    requires Apart(tables, bound) && i < |tables|
    ensures Apart(Without(tables, i), bound + VarsOf(tables[i]))
    ensures AllVars(tables) == AllVars(Without(tables, i)) + VarsOf(tables[i])
    decreases i
  {
    if i == 0 {
      assert Without(tables, 0) == tables[1..];
    } else {
      var t := tables[0];
      ApartWithout(tables[1..], bound + VarsOf(t), i - 1);
      ApartFrom(tables[1..], bound + VarsOf(t), i - 1);
      assert Without(tables, i) == [t] + Without(tables[1..], i - 1);
      assert Without(tables, i)[1..] == Without(tables[1..], i - 1);
      assert bound + VarsOf(t) + VarsOf(tables[i]) == bound + VarsOf(tables[i]) + VarsOf(t);
    }
  }

  // ---------- what an answer is ----------

  predicate Extends(e: Env, e': Env) {
    forall v | v in e :: v in e' && e'[v] == e[v]
  }

  lemma {:induction false} AnswerFacts(I: Interp, tables: seq<Table>, cs: seq<Clause>, e: Env, a: Env)
    requires Apart(tables, e.Keys) && a in Answers(I, tables, cs, e)
    ensures AllHold(I, cs, a) && Extends(e, a) && a.Keys == e.Keys + AllVars(tables)
    decreases |tables|, 0
  {
    if tables != [] { RowAnswerFacts(I, tables, tables[0].rows, cs, e, a); }
  }

  lemma {:induction false} RowAnswerFacts(I: Interp, tables: seq<Table>, rows: seq<Row>, cs: seq<Clause>, e: Env,
      a: Env)
    requires tables != [] && Apart(tables, e.Keys) && a in RowAnswers(I, tables[0], rows, tables[1..], cs, e)
    ensures AllHold(I, cs, a) && Extends(e, a) && a.Keys == e.Keys + AllVars(tables)
    decreases |tables| - 1, 1 + |rows|
  {
    var t := tables[0];
    var e' := Bind(e, t.vars, rows[0]);
    if a in Answers(I, tables[1..], cs, e') {
      BindKeys(e, t, rows[0]);
      AnswerFacts(I, tables[1..], cs, e', a);
      BoundKeys(t.vars, rows[0]);
      forall v | v in e ensures v in a && a[v] == e[v] {
        assert v in e' && e'[v] == e[v];
      }
    } else {
      RowAnswerFacts(I, tables, rows[1..], cs, e, a);
    }
  }

  // ---------- clauses ----------

  /** A clause depends on its free variables only; an equality's columns are free in it. */
  ghost predicate WellScoped(I: Interp, c: Clause, columns: set<Var>) {
    match c.src
    case Equals(lhs, rhs) => c.scanOk && (lhs in columns ==> lhs in c.freeVars) &&
        (rhs in columns ==> rhs in c.freeVars)
                             && c.freeVars <= {lhs, rhs}
    case General(id) => forall e, e' | SameOn(c.freeVars, e, e') :: I.truth(id, e) == I.truth(id, e')
  }

  predicate SameOn(vars: set<Var>, e: Env, e': Env) {
    forall v | v in vars :: (v in e <==> v in e') && (v in e && v in e' ==> e[v] == e'[v])
  }

  /** Everything the clause needs is bound. */
  predicate Determined(c: Clause, bound: set<Var>) {
    c.freeVars <= bound || EquiJoin(c, bound)
  }

  lemma HoldsLater(I: Interp, c: Clause, e: Env, e': Env, columns: set<Var>)
    requires WellScoped(I, c, columns) && Determined(c, e.Keys) && Extends(e, e') && e'.Keys <= columns
    ensures Holds(I, c, e) == Holds(I, c, e')
  {
    if c.src.General? { assert SameOn(c.freeVars, e, e'); }
  }

  /** A binding that fails a determined clause is part of no answer. */
  lemma Dead(I: Interp, tables: seq<Table>, cs: seq<Clause>, e: Env, c: Clause, columns: set<Var>)
    requires Apart(tables, e.Keys) && e.Keys + AllVars(tables) <= columns
    requires c in cs && WellScoped(I, c, columns) && Determined(c, e.Keys) && !Holds(I, c, e)
    ensures Answers(I, tables, cs, e) == multiset{}
  {
    if a :| a in Answers(I, tables, cs, e) {
      AnswerFacts(I, tables, cs, e, a);
      HoldsLater(I, c, e, a, columns);
      assert false;
    }
  }

  // ---------- running over rows ----------

  /** What the loop over a table's rows must do for one row. */
  ghost predicate RowDone(I: Interp, t: Table, row: Row, kept: bool, plan: Plan, rest: seq<Table>, cs: seq<Clause>,
      e: Env) {
    var e' := Bind(e, t.vars, row);
    Answers(I, rest, cs, e') == if kept then multiset(Eval(I, plan, e')) else multiset{}
  }

  lemma {:induction false} ScanSums(I: Interp, t: Table, rows: seq<Row>, filters: seq<Clause>, plan: Plan,
                                    rest: seq<Table>, cs: seq<Clause>, e: Env)
    requires forall row | row in rows :: RowDone(I, t, row, AllHold(I, filters, Bind(e, t.vars, row)), plan, rest,
        cs, e)
    ensures multiset(EvalRows(I, rows, t.vars, filters, plan, e)) == RowAnswers(I, t, rows, rest, cs, e)
    decreases |rows|
  {
    hide AllHold, Eval;
    if rows != [] {
      ScanSums(I, t, rows[1..], filters, plan, rest, cs, e);
      assert RowDone(I, t, rows[0], AllHold(I, filters, Bind(e, t.vars, rows[0])), plan, rest, cs, e);
    }
  }

  /** Whether a hash join lets a row of its table through. */
  predicate Joins(I: Interp, ix: Index, row: Row, filters: seq<Clause>, key: Row, e: Env) {
    && Keeps(I, ix, row)
    && KeysMatch(Columns(I, ix.table, row, ix.outVars), key)
    && AllHold(I, filters, Bind(e, ix.table.vars, row))
  }

  lemma {:induction false} BoundRead(I: Interp, vars: seq<Var>, row: Row, e: Env)
    requires |row| == |vars| && forall i | 0 <= i < |vars| :: vars[i] in e && row[i] == e[vars[i]]
    ensures forall v | v in vars :: v in Bound(vars, row) && Bound(vars, row)[v] == e[v]
  {
    BoundReadPrefix(I, vars, |vars|, row, e);
    assert vars[..|vars|] == vars;
  }

  lemma {:induction false} BoundReadPrefix(I: Interp, vars: seq<Var>, n: nat, row: Row, e: Env)
    requires n <= |vars| == |row| && forall i | 0 <= i < |vars| :: vars[i] in e && row[i] == e[vars[i]]
    ensures forall v | v in vars[..n] :: v in Bound(vars[..n], row) && Bound(vars[..n], row)[v] == e[v]
    decreases n
  {
    if n > 0 {
      BoundReadPrefix(I, vars, n - 1, row, e);
      assert vars[..n][..n - 1] == vars[..n - 1];
      assert vars[..n] == vars[..n - 1] + [vars[n - 1]];
    }
  }

  /** A row stored in an index binds the same values as the table row it was made from. */
  lemma StoredRow(I: Interp, t: Table, row: Row)
    ensures Bound(t.vars, Columns(I, t, row, t.vars)) == Bound(t.vars, row)
  {
    var e := Bound(t.vars, row);
    BoundKeys(t.vars, row);
    var stored := Columns(I, t, row, t.vars);
    BoundKeys(t.vars, stored);
    BoundRead(I, t.vars, stored, e);
  }

  lemma {:induction false} MatchesAppend(I: Interp, ix: Index, a: seq<Row>, b: seq<Row>, key: Row)
    ensures Matches(I, ix, a + b, key) == Matches(I, ix, a, key) + Matches(I, ix, b, key)
    decreases |a|
  {
    if a == [] {
      assert a + b == b;
    } else {
      assert (a + b)[1..] == a[1..] + b;
      MatchesAppend(I, ix, a[1..], b, key);
    }
  }

  lemma {:induction false} EvalRowsAppend(I: Interp, a: seq<Row>, b: seq<Row>, vars: seq<Var>, filters: seq<Clause>,
      plan: Plan, e: Env)
    ensures EvalRows(I, a + b, vars, filters, plan, e)
            == EvalRows(I, a, vars, filters, plan, e) + EvalRows(I, b, vars, filters, plan, e)
    decreases |a|
  {
    hide AllHold, Eval;
    if a == [] {
      assert a + b == b;
    } else {
      assert (a + b)[1..] == a[1..] + b;
      EvalRowsAppend(I, a[1..], b, vars, filters, plan, e);
    }
  }

  lemma {:induction false} JoinSums(I: Interp, ix: Index, rows: seq<Row>, filters: seq<Clause>, key: Row, plan: Plan,
                                    rest: seq<Table>, cs: seq<Clause>, e: Env)
    requires forall row | row in rows :: RowDone(I, ix.table, row, Joins(I, ix, row, filters, key, e), plan, rest,
        cs, e)
    ensures multiset(EvalRows(I, Matches(I, ix, Built(I, ix, rows), key), ix.table.vars, filters, plan, e))
            == RowAnswers(I, ix.table, rows, rest, cs, e)
    decreases |rows|
  {
    hide AllHold, Eval, Answers, Keeps, KeysMatch;
    if rows != [] {
      JoinSums(I, ix, rows[1..], filters, key, plan, rest, cs, e);
      var first := if Keeps(I, ix, rows[0]) then [Columns(I, ix.table, rows[0], ix.table.vars)] else [];
      MatchesAppend(I, ix, first, Built(I, ix, rows[1..]), key);
      EvalRowsAppend(I, Matches(I, ix, first, key), Matches(I, ix, Built(I, ix, rows[1..]), key), ix.table.vars,
          filters, plan, e);
      assert RowDone(I, ix.table, rows[0], Joins(I, ix, rows[0], filters, key, e), plan, rest, cs, e);
      OneRow(I, ix, rows[0], filters, key, plan, e);
    }
  }

  lemma OneRow(I: Interp, ix: Index, row: Row, filters: seq<Clause>, key: Row, plan: Plan, e: Env)
    ensures var first := if Keeps(I, ix, row) then [Columns(I, ix.table, row, ix.table.vars)] else [];
            EvalRows(I, Matches(I, ix, first, key), ix.table.vars, filters, plan, e)
            == if Joins(I, ix, row, filters, key, e) then Eval(I, plan, Bind(e, ix.table.vars, row)) else []
  {
    hide AllHold, Eval, Keeps, KeysMatch;
    StoredRow(I, ix.table, row);
    var stored := Columns(I, ix.table, row, ix.table.vars);
    assert Columns(I, ix.table, stored, ix.outVars) == Columns(I, ix.table, row, ix.outVars);
    assert [stored][1..] == [];
  }
}
