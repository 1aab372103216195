/** Correctness of the planner: scan filters, hash join keys, pushed-down filters, the filters that
    earlier indexes provide, and what is left for the end together are the whole WHERE clause. */
module PlannerCorrect {
  import opened VarGroups
  import opened Planner
  import opened PlannerProof

  // ---------- groups of equal variables ----------

  predicate Operand(c: Clause, v: Var) {
    c.src.Equals? && (v == c.src.lhs || v == c.src.rhs)
  }

  predicate InEquality(cs: seq<Clause>, v: Var) {
    exists c | c in cs :: Operand(c, v)
  }

  lemma {:induction false} PairOf(cs: seq<Clause>, c: Clause)
    requires c in cs && c.src.Equals?
    ensures [c.src.lhs, c.src.rhs] in Pairs(cs)
  {
    if cs[0] != c {
      assert c in cs[1..];
      PairOf(cs[1..], c);
    }
  }

  lemma {:induction false} PairFrom(cs: seq<Clause>, i: nat) returns (c: Clause)
    requires i < |Pairs(cs)|
    ensures c in cs && c.src.Equals? && Pairs(cs)[i] == [c.src.lhs, c.src.rhs]
  {
    if cs[0].src.Equals? && i == 0 {
      c := cs[0];
    } else {
      c := PairFrom(cs[1..], if cs[0].src.Equals? then i - 1 else i);
    }
  }

  /** The variables that an answer makes equal to x. */
  function EqualTo(I: Interp, all: set<Var>, a: Env, x: Var): set<Var> {
    set v | v in all && SqlEq(Val(I, a, x), Val(I, a, v))
  }

  lemma EqualitiesRespect(I: Interp, cs: seq<Clause>, a: Env, x: Var)
    requires AllHold(I, cs, a)
    ensures Respects(Pairs(cs), EqualTo(I, Elements(Pairs(cs)), a, x))
  {
    var pairs := Pairs(cs);
    var part := EqualTo(I, Elements(pairs), a, x);
    forall i | 0 <= i < |pairs| && Touches(pairs[i], part) ensures SetOf(pairs[i]) <= part {
      var c := PairFrom(cs, i);
      assert Holds(I, c, a);
      forall v | v in pairs[i] ensures v in part {
        assert v in Elements(pairs);
      }
    }
  }

  lemma PairWith(cs: seq<Clause>, x: Var) returns (i: nat)
    requires InEquality(cs, x)
    ensures i < |Pairs(cs)| && x in Pairs(cs)[i]
  {
    var c :| c in cs && Operand(c, x);
    PairOf(cs, c);
    var p: seq<Var> := [c.src.lhs, c.src.rhs];
    i :| 0 <= i < |Pairs(cs)| && Pairs(cs)[i] == p;
    assert p[0] == c.src.lhs && p[1] == c.src.rhs;
  }

  lemma SelfEqual(I: Interp, cs: seq<Clause>, a: Env, x: Var)
    requires AllHold(I, cs, a) && InEquality(cs, x)
    ensures SqlEq(Val(I, a, x), Val(I, a, x))
  {
    var c :| c in cs && Operand(c, x);
    assert Holds(I, c, a);
  }

  /** Variables of one group are equal in every answer. */
  lemma GroupEqual(I: Interp, cs: seq<Clause>, a: Env, x: Var, y: Var)
    requires AllHold(I, cs, a) && InEquality(cs, x)
    requires y in Group(x, BuildVarGroups(Pairs(cs)))
    ensures SqlEq(Val(I, a, x), Val(I, a, y))
  {
    hide BuildVarGroups, AllHold, InEquality, Pairs;
    var pairs := Pairs(cs);
    var part := EqualTo(I, Elements(pairs), a, x);
    var i := PairWith(cs, x);
    SelfEqual(I, cs, a, x);
    assert x in part;
    EqualitiesRespect(I, cs, a, x);
    GroupsRespect(pairs, part);
    GroupIn(BuildVarGroups(pairs), part, x, y);
  }

  lemma GroupIn(groups: seq<seq<Var>>, part: set<Var>, x: Var, y: Var)
    requires Respects(groups, part) && x in part && y in Group(x, groups)
    ensures y in part
  {
    var g := Group(x, groups);
    var j :| 0 <= j < |groups| && groups[j] == g;
    assert Touches(groups[j], part);
    assert y in SetOf(groups[j]);
  }

  lemma HasGroup(cs: seq<Clause>, x: Var)
    requires InEquality(cs, x)
    ensures Group(x, BuildVarGroups(Pairs(cs))) != []
  {
    hide BuildVarGroups, InEquality, Pairs;
    var pairs := Pairs(cs);
    var i := PairWith(cs, x);
    forall k | 0 <= k < |pairs| ensures Covered(pairs[k], pairs) {
      assert SetOf(pairs[k]) <= SetOf(pairs[k]);
    }
    GroupsContain(pairs, pairs);
    CoveredHasGroup(pairs[i], BuildVarGroups(pairs), x);
  }

  lemma CoveredHasGroup(g: seq<Var>, groups: seq<seq<Var>>, x: Var)
    requires Covered(g, groups) && x in g
    ensures Group(x, groups) != []
  {
    var j :| 0 <= j < |groups| && SetOf(g) <= SetOf(groups[j]);
    assert x in SetOf(g);
    assert groups[j] in groups && x in groups[j];
  }

  // ---------- join keys ----------

  /** An equality between a variable of the new table and one bound before. */
  predicate Crosses(c: Clause, newVars: set<Var>, vars: set<Var>) {
    c.src.Equals? && if c.src.lhs in newVars then c.src.rhs in vars && c.src.rhs !in newVars
                     else c.src.lhs in vars && c.src.rhs in newVars
  }

  function NewSide(c: Clause, newVars: set<Var>): Var
    requires c.src.Equals?
  {
    if c.src.lhs in newVars then c.src.lhs else c.src.rhs
  }

  function OldSide(c: Clause, newVars: set<Var>): Var
    requires c.src.Equals?
  {
    if c.src.lhs in newVars then c.src.rhs else c.src.lhs
  }

  ghost predicate AllCross(equi: seq<Clause>, newVars: set<Var>, vars: set<Var>) {
    forall c | c in equi :: Crosses(c, newVars, vars)
  }

  lemma {:induction false} KeysAligned(equi: seq<Clause>, newVars: set<Var>, vars: set<Var>)
    requires AllCross(equi, newVars, vars)
    ensures |InVars(equi, newVars)| == |OutVars(equi, newVars)| == |equi|
    ensures forall i | 0 <= i < |equi| ::
              && equi[i].src.Equals?
              && InVars(equi, newVars)[i] == OldSide(equi[i], newVars)
              && OutVars(equi, newVars)[i] == NewSide(equi[i], newVars)
  {
    if equi != [] {
      assert equi[0] in equi;
      assert forall c | c in equi[1..] :: c in equi;
      KeysAligned(equi[1..], newVars, vars);
    }
  }

  /** Equal keys mean that every join clause holds. */
  lemma KeyMeaning(I: Interp, t: Table, row: Row, equi: seq<Clause>, e: Env)
    requires AllCross(equi, VarsOf(t), e.Keys)
    ensures KeysMatch(Columns(I, t, row, OutVars(equi, VarsOf(t))), Read(I, e, InVars(equi, VarsOf(t))))
            <==> AllHold(I, equi, Bind(e, t.vars, row))
  {
    var newVars := VarsOf(t);
    KeysAligned(equi, newVars, e.Keys);
    BoundKeys(t.vars, row);
    var e' := Bind(e, t.vars, row);
    var out, inn := Columns(I, t, row, OutVars(equi, newVars)), Read(I, e, InVars(equi, newVars));
    forall i | 0 <= i < |equi| ensures SqlEq(out[i], inn[i]) <==> Holds(I, equi[i], e') {
      assert Crosses(equi[i], newVars, e.Keys);
    }
    if KeysMatch(out, inn) {
      forall c | c in equi ensures Holds(I, c, e') {
        var i :| 0 <= i < |equi| && equi[i] == c;
        assert SqlEq(out[i], inn[i]);
      }
    } else {
      var i :| 0 <= i < |equi| && !SqlEq(out[i], inn[i]);
      assert equi[i] in equi;
    }
  }

  // ---------- earlier indexes ----------

  /** The part of the binding that belongs to an earlier join is a row of its index, and its key
      variables come from equalities. */
  ghost predicate SourceOk(I: Interp, all: seq<Clause>, e: Env, s: Index) {
    && VarsOf(s.table) <= e.Keys
    && (forall v | v in s.outVars :: v in VarsOf(s.table) && InEquality(all, v))
    && exists row | row in IndexRows(I, s) :: RowOf(e, s.table, row)
  }

  predicate RowOf(e: Env, t: Table, row: Row) {
    Extends(Bound(t.vars, row), e)
  }

  lemma ReadRow(I: Interp, t: Table, row: Row, e: Env, v: Var)
    requires RowOf(e, t, row) && v in VarsOf(t)
    ensures v in e && Val(I, Bound(t.vars, row), v) == e[v]
  {
    BoundKeys(t.vars, row);
  }

  /** Looking up the values of the join variables in an earlier index only drops rows that no equal
      key would have let through. */
  lemma KeysProbeSound(I: Interp, all: seq<Clause>, s: Index, t: Table, row: Row, equi: seq<Clause>, e: Env)
    requires SourceOk(I, all, e, s) && AllCross(equi, VarsOf(t), e.Keys)
    requires AllHold(I, equi, Bind(e, t.vars, row))
    ensures var inVars, outVars := InVars(equi, VarsOf(t)), OutVars(equi, VarsOf(t));
            var sipIn := Among(inVars, VarsOf(s.table));
            Passes(I, Keys(s, sipIn, Paired(sipIn, inVars, outVars)), Bound(t.vars, row))
  {
    var newVars := VarsOf(t);
    KeysAligned(equi, newVars, e.Keys);
    var inVars, outVars := InVars(equi, newVars), OutVars(equi, newVars);
    var sipIn := Among(inVars, VarsOf(s.table));
    var outs := Paired(sipIn, inVars, outVars);
    var stored :| stored in IndexRows(I, s) && RowOf(e, s.table, stored);
    var left, right := Columns(I, s.table, stored, sipIn), Read(I, Bound(t.vars, row), outs);
    forall k | 0 <= k < |sipIn| ensures SqlEq(left[k], right[k]) {
      assert sipIn[k] in sipIn;
      var p := Position(sipIn[k], inVars);
      ReadRow(I, s.table, stored, e, sipIn[k]);
      ClauseGives(I, t, row, equi[p], e);
    }
    assert KeysMatch(left, right);
  }

  lemma ClauseGives(I: Interp, t: Table, row: Row, c: Clause, e: Env)
    requires Crosses(c, VarsOf(t), e.Keys) && Holds(I, c, Bind(e, t.vars, row))
    ensures var x, y := OldSide(c, VarsOf(t)), NewSide(c, VarsOf(t));
            x in e && SqlEq(e[x], Val(I, Bound(t.vars, row), y))
  {
    BoundKeys(t.vars, row);
  }

  lemma {:induction false} GroupsFound(vars: seq<Var>, groups: seq<seq<Var>>)
    requires forall v | v in vars :: Group(v, groups) != []
    ensures |GroupsOf(vars, groups)| == |vars|
    ensures forall k | 0 <= k < |vars| :: GroupsOf(vars, groups)[k] == Group(vars[k], groups)
  {
    if vars != [] {
      assert vars[0] in vars;
      assert forall v | v in vars[1..] :: v in vars;
      GroupsFound(vars[1..], groups);
    }
  }

  lemma {:induction false} FirstsFound(vars: seq<Var>, groups: seq<seq<Var>>)
    requires forall g | g in groups :: Meets(vars, g)
    ensures |FirstOfEach(vars, groups)| == |groups|
    ensures forall k | 0 <= k < |groups| :: FirstOfEach(vars, groups)[k] in vars && FirstOfEach(vars,
        groups)[k] in groups[k]
  {
    hide Meets;
    if groups != [] {
      assert groups[0] in groups;
      assert forall g | g in groups[1..] :: g in groups;
      FirstsFound(vars, groups[1..]);
    }
  }

  /** Reusing an earlier index directly only drops rows that are part of no answer: the answer's
      equalities, maybe through tables not joined yet, would put the row's key into that index. */
  lemma ReuseProbeSound(I: Interp, all: seq<Clause>, s: Index, t: Table, row: Row, outVars: seq<Var>, e: Env, a: Env)
    requires SourceOk(I, all, e, s) && AllHold(I, all, a) && Extends(Bind(e, t.vars, row), a)
    requires VarsOf(t) !! e.Keys && forall v | v in outVars :: v in VarsOf(t)
    requires var gs := GroupsOf(s.outVars, BuildVarGroups(Pairs(all))); forall g | g in gs :: Meets(outVars, g)
    ensures var gs := GroupsOf(s.outVars, BuildVarGroups(Pairs(all)));
            Passes(I, Reuse(s, FirstOfEach(outVars, gs)), Bound(t.vars, row))
  {
    var groups := BuildVarGroups(Pairs(all));
    forall v | v in s.outVars ensures Group(v, groups) != [] { HasGroup(all, v); }
    GroupsFound(s.outVars, groups);
    var gs := GroupsOf(s.outVars, groups);
    FirstsFound(outVars, gs);
    var outs := FirstOfEach(outVars, gs);
    var stored :| stored in IndexRows(I, s) && RowOf(e, s.table, stored);
    var left, right := Columns(I, s.table, stored, s.outVars), Read(I, Bound(t.vars, row), outs);
    forall k | 0 <= k < |outs| ensures SqlEq(left[k], right[k]) {
      var x, y := s.outVars[k], outs[k];
      assert x in s.outVars && y in outVars;
      GroupEqual(I, all, a, x, y);
      ReadRow(I, s.table, stored, e, x);
      InAnswer(I, t, row, e, a, x, y);
    }
    assert KeysMatch(left, right);
  }

  lemma InAnswer(I: Interp, t: Table, row: Row, e: Env, a: Env, x: Var, y: Var)
    requires Extends(Bind(e, t.vars, row), a) && VarsOf(t) !! e.Keys && x in e && y in VarsOf(t)
    ensures Val(I, a, x) == e[x] && Val(I, a, y) == Val(I, Bound(t.vars, row), y)
  {
    BoundKeys(t.vars, row);
    assert Bind(e, t.vars, row)[x] == e[x] && Bind(e, t.vars, row)[y] == Bound(t.vars, row)[y];
  }

  lemma {:induction false} ProbeFrom(sources: seq<Index>, inVars: seq<Var>, outVars: seq<Var>, groups: seq<seq<Var>>,
      p: Probe)
    returns (s: Index)
    requires p in ProbesOf(sources, inVars, outVars, groups)
    ensures s in sources && p in ProbeOf(s, inVars, outVars, groups)
  {
    if p in ProbeOf(sources[0], inVars, outVars, groups) {
      s := sources[0];
    } else {
      s := ProbeFrom(sources[1..], inVars, outVars, groups, p);
    }
  }

  // ---------- one table ----------

  ghost predicate SourcesOk(I: Interp, all: seq<Clause>, e: Env, sources: seq<Index>) {
    forall s | s in sources :: SourceOk(I, all, e, s)
  }

  ghost predicate Scoped(I: Interp, all: seq<Clause>, columns: set<Var>) {
    forall c | c in all :: WellScoped(I, c, columns)
  }

  /** Clauses no longer in cs hold already; clauses in cs are not join keys of bound tables. */
  ghost predicate Progress(I: Interp, all: seq<Clause>, cs: seq<Clause>, e: Env) {
    && (forall c | c in cs :: c in all && !EquiJoin(c, e.Keys))
    && (forall c | c in all && c !in cs :: Holds(I, c, e) && Determined(c, e.Keys))
  }

  /** Planning has come so far: these tables and clauses are left, and e binds the other tables. */
  ghost predicate Good(I: Interp, all: seq<Clause>, columns: set<Var>, tables: seq<Table>, cs: seq<Clause>, e: Env,
      sources: seq<Index>) {
    && Apart(tables, e.Keys) && e.Keys + AllVars(tables) == columns
    && Scoped(I, all, columns)
    && Progress(I, all, cs, e)
    && SourcesOk(I, all, e, sources)
  }

  function Kind(c: Clause, t: Table, e: Env): Class {
    Classify(c, VarsOf(t), VarsOf(t) + e.Keys)
  }

  function Chosen(cs: seq<Clause>, t: Table, e: Env, k: Class): seq<Clause> {
    Select(cs, VarsOf(t), VarsOf(t) + e.Keys, k)
  }

  /** Every clause that this table settles holds. */
  ghost predicate Settled(I: Interp, cs: seq<Clause>, t: Table, row: Row, e: Env) {
    forall c | c in cs && Kind(c, t, e) != Left :: Holds(I, c, Bind(e, t.vars, row))
  }

  lemma JoinClausesCross(I: Interp, all: seq<Clause>, columns: set<Var>, cs: seq<Clause>, t: Table, e: Env)
    requires Scoped(I, all, columns) && Progress(I, all, cs, e)
    requires VarsOf(t) <= columns && e.Keys <= columns && VarsOf(t) !! e.Keys
    ensures AllCross(Chosen(cs, t, e, ToJoin), VarsOf(t), e.Keys)
  {
    forall c | c in Chosen(cs, t, e, ToJoin) ensures Crosses(c, VarsOf(t), e.Keys) {
      assert WellScoped(I, c, columns) && !EquiJoin(c, e.Keys);
    }
  }

  /** A clause that fails here keeps the row out of every answer. */
  lemma FailsHere(I: Interp, all: seq<Clause>, columns: set<Var>, cs: seq<Clause>, t: Table, rest: seq<Table>,
      row: Row, e: Env)
    requires Scoped(I, all, columns) && Progress(I, all, cs, e)
    requires Apart(rest, e.Keys + VarsOf(t)) && e.Keys + VarsOf(t) + AllVars(rest) <= columns
    requires !Settled(I, cs, t, row, e)
    ensures Answers(I, rest, all, Bind(e, t.vars, row)) == multiset{}
  {
    BindKeys(e, t, row);
    var c :| c in cs && Kind(c, t, e) != Left && !Holds(I, c, Bind(e, t.vars, row));
    assert WellScoped(I, c, columns);
    assert VarsOf(t) + e.Keys == Bind(e, t.vars, row).Keys;
    Dead(I, rest, all, Bind(e, t.vars, row), c, columns);
  }

  /** Scan clauses see the table's own columns only. */
  lemma ScanClause(I: Interp, c: Clause, t: Table, row: Row, e: Env, columns: set<Var>)
    requires WellScoped(I, c, columns) && c.freeVars <= VarsOf(t) && e.Keys + VarsOf(t) <= columns
    ensures Holds(I, c, Bound(t.vars, row)) == Holds(I, c, Bind(e, t.vars, row))
  {
    BoundKeys(t.vars, row);
    HoldsLater(I, c, Bound(t.vars, row), Bind(e, t.vars, row), columns);
  }

  lemma NextGood(I: Interp, all: seq<Clause>, columns: set<Var>, tables: seq<Table>, cs: seq<Clause>, e: Env,
      sources: seq<Index>,
                 i: nat, row: Row, more: seq<Index>)
    requires Good(I, all, columns, tables, cs, e, sources) && i < |tables|
    requires Settled(I, cs, tables[i], row, e)
    requires forall s | s in more :: s in sources || SourceOk(I, all, Bind(e, tables[i].vars, row), s)
    ensures Good(I, all, columns, Without(tables, i), Chosen(cs, tables[i], e, Left), Bind(e, tables[i].vars, row),
        more)
  {
    var t := tables[i];
    var e' := Bind(e, t.vars, row);
    BindKeys(e, t, row);
    BoundKeys(t.vars, row);
    ApartFrom(tables, e.Keys, i);
    ApartWithout(tables, e.Keys, i);
    assert Extends(e, e');
    assert VarsOf(t) + e.Keys == e'.Keys;
    StillProgress(I, all, columns, cs, e, t, row);
    forall s | s in more && s in sources ensures SourceOk(I, all, e', s) {
      SourceStays(I, all, e, e', s);
    }
  }

  lemma SourceStays(I: Interp, all: seq<Clause>, e: Env, e': Env, s: Index)
    requires SourceOk(I, all, e, s) && Extends(e, e')
    ensures SourceOk(I, all, e', s)
  {
    var row :| row in IndexRows(I, s) && RowOf(e, s.table, row);
    assert RowOf(e', s.table, row);
  }

  lemma StillProgress(I: Interp, all: seq<Clause>, columns: set<Var>, cs: seq<Clause>, e: Env, t: Table, row: Row)
    requires Scoped(I, all, columns) && Progress(I, all, cs, e)
    requires VarsOf(t) + e.Keys <= columns && VarsOf(t) !! e.Keys && Settled(I, cs, t, row, e)
    ensures Progress(I, all, Chosen(cs, t, e, Left), Bind(e, t.vars, row))
  {
    var e' := Bind(e, t.vars, row);
    BindKeys(e, t, row);
    BoundKeys(t.vars, row);
    assert Extends(e, e') && VarsOf(t) + e.Keys == e'.Keys;
    forall c | c in all && c !in Chosen(cs, t, e, Left) ensures Holds(I, c, e') && Determined(c, e'.Keys) {
      if c !in cs {
        assert WellScoped(I, c, columns);
        HoldsLater(I, c, e, e', columns);
      }
    }
  }

  // ---------- a joined table ----------

  function PlannedIndex(all: seq<Clause>, t: Table, cs: seq<Clause>, e: Env, sources: seq<Index>, key: nat): Index {
    var equi := Chosen(cs, t, e, ToJoin);
    var inVars, outVars := InVars(equi, VarsOf(t)), OutVars(equi, VarsOf(t));
    Index(key, t, Chosen(cs, t, e, ToScan), ProbesOf(sources, inVars, outVars, BuildVarGroups(Pairs(all))), outVars)
  }

  lemma {:induction false} OutVarsNew(equi: seq<Clause>, newVars: set<Var>, v: Var)
    requires v in OutVars(equi, newVars)
    ensures v in newVars && exists c | c in equi :: Operand(c, v)
  {
    if equi[0].src.Equals? && v in OneSide(equi[0].src, newVars, true) {
      assert Operand(equi[0], v);
    } else {
      OutVarsNew(equi[1..], newVars, v);
      var c :| c in equi[1..] && Operand(c, v);
      assert c in equi;
    }
  }

  lemma OutVarsOfJoin(all: seq<Clause>, cs: seq<Clause>, t: Table, e: Env, v: Var)
    requires forall c | c in cs :: c in all
    requires v in OutVars(Chosen(cs, t, e, ToJoin), VarsOf(t))
    ensures v in VarsOf(t) && InEquality(all, v)
  {
    var equi := Chosen(cs, t, e, ToJoin);
    OutVarsNew(equi, VarsOf(t), v);
    var c :| c in equi && Operand(c, v);
    assert c in all;
  }

  /** If every clause settled here holds, each probe lets the row through or the row is in no answer. */
  lemma ProbeSound(I: Interp, all: seq<Clause>, columns: set<Var>, tables: seq<Table>, cs: seq<Clause>, e: Env,
      sources: seq<Index>,
                   i: nat, row: Row, key: nat, p: Probe)
    requires Good(I, all, columns, tables, cs, e, sources) && i < |tables|
    requires Settled(I, cs, tables[i], row, e)
    requires p in PlannedIndex(all, tables[i], cs, e, sources, key).probes
    requires !Passes(I, p, Bound(tables[i].vars, row))
    ensures Answers(I, Without(tables, i), all, Bind(e, tables[i].vars, row)) == multiset{}
  {
    hide Passes, BuildVarGroups, Pairs, Answers, SourceOk, ProbesOf;
    var t := tables[i];
    var e' := Bind(e, t.vars, row);
    var equi := Chosen(cs, t, e, ToJoin);
    var inVars, outVars := InVars(equi, VarsOf(t)), OutVars(equi, VarsOf(t));
    var groups := BuildVarGroups(Pairs(all));
    ApartFrom(tables, e.Keys, i);
    ApartWithout(tables, e.Keys, i);
    BindKeys(e, t, row);
    JoinClausesCross(I, all, columns, cs, t, e);
    var s := ProbeFrom(sources, inVars, outVars, groups, p);
    if p.Keys? {
      KeysProbeSound(I, all, s, t, row, equi, e);
      assert false;
    } else {
      forall v | v in outVars ensures v in VarsOf(t) { OutVarsOfJoin(all, cs, t, e, v); }
      if a :| a in Answers(I, Without(tables, i), all, e') {
        AnswerFacts(I, Without(tables, i), all, e', a);
        ReuseProbeSound(I, all, s, t, row, outVars, e, a);
        assert false;
      }
    }
  }

  /** A row that passes the join settles every clause it can; a row that does not is in no answer. */
  lemma JoinRow(I: Interp, all: seq<Clause>, columns: set<Var>, tables: seq<Table>, cs: seq<Clause>, e: Env,
      sources: seq<Index>,
                i: nat, row: Row, key: nat)
    requires Good(I, all, columns, tables, cs, e, sources) && i < |tables|
    ensures var t := tables[i];
            var ix := PlannedIndex(all, t, cs, e, sources, key);
            var inVars := InVars(Chosen(cs, t, e, ToJoin), VarsOf(t));
            if Joins(I, ix, row, Chosen(cs, t, e, ToPush), Read(I, e, inVars), e) then Settled(I, cs, t, row, e)
            else Answers(I, Without(tables, i), all, Bind(e, t.vars, row)) == multiset{}
  {
    hide Passes, BuildVarGroups, Pairs, Answers, SourceOk, ProbesOf, Bind;
    var t := tables[i];
    var e' := Bind(e, t.vars, row);
    var ix := PlannedIndex(all, t, cs, e, sources, key);
    ApartFrom(tables, e.Keys, i);
    ApartWithout(tables, e.Keys, i);
    assert e.Keys + VarsOf(t) + AllVars(Without(tables, i)) == columns;
    JoinClausesCross(I, all, columns, cs, t, e);
    KeyMeaning(I, t, row, Chosen(cs, t, e, ToJoin), e);
    forall c | c in Chosen(cs, t, e, ToScan) ensures Holds(I, c, Bound(t.vars, row)) == Holds(I, c, e') {
      assert WellScoped(I, c, columns);
      ScanClause(I, c, t, row, e, columns);
    }
    if !Settled(I, cs, t, row, e) {
      FailsHere(I, all, columns, cs, t, Without(tables, i), row, e);
      NotJoined(I, cs, t, row, e, ix);
    } else if p :| p in ix.probes && !Passes(I, p, Bound(t.vars, row)) {
      ProbeSound(I, all, columns, tables, cs, e, sources, i, row, key, p);
    } else {
      assert Joins(I, ix, row, Chosen(cs, t, e, ToPush), Read(I, e, InVars(Chosen(cs, t, e, ToJoin), VarsOf(t))), e);
    }
  }

  lemma NotJoined(I: Interp, cs: seq<Clause>, t: Table, row: Row, e: Env, ix: Index)
    requires !Settled(I, cs, t, row, e) && ix.table == t && ix.scan == Chosen(cs, t, e, ToScan)
    requires ix.outVars == OutVars(Chosen(cs, t, e, ToJoin), VarsOf(t))
    requires KeysMatch(Columns(I, t, row, ix.outVars), Read(I, e, InVars(Chosen(cs, t, e, ToJoin), VarsOf(t))))
             <==> AllHold(I, Chosen(cs, t, e, ToJoin), Bind(e, t.vars, row))
    requires forall c | c in ix.scan :: Holds(I, c, Bound(t.vars, row)) == Holds(I, c, Bind(e, t.vars, row))
    ensures !Joins(I, ix, row, Chosen(cs, t, e, ToPush), Read(I, e, InVars(Chosen(cs, t, e, ToJoin), VarsOf(t))), e)
  {
    hide Passes, Columns, Read, KeysMatch, Bind, Classify, Holds;
    var c :| c in cs && Kind(c, t, e) != Left && !Holds(I, c, Bind(e, t.vars, row));
    match Kind(c, t, e) {
      case ToScan => assert c in ix.scan;
      case ToJoin => assert c in Chosen(cs, t, e, ToJoin);
      case ToPush => assert c in Chosen(cs, t, e, ToPush);
      case Left =>
    }
  }

  /** The row just joined is a row of its own index. */
  lemma NewSourceOk(I: Interp, all: seq<Clause>, cs: seq<Clause>, t: Table, row: Row, e: Env, sources: seq<Index>,
      key: nat)
    requires forall c | c in cs :: c in all
    requires row in t.rows && Keeps(I, PlannedIndex(all, t, cs, e, sources, key), row)
    ensures SourceOk(I, all, Bind(e, t.vars, row), PlannedIndex(all, t, cs, e, sources, key))
  {
    hide Keeps, BuildVarGroups, Pairs, ProbesOf, InEquality;
    var ix := PlannedIndex(all, t, cs, e, sources, key);
    KeptRow(I, ix, t.rows, row);
    var stored := Columns(I, t, row, t.vars);
    StoredRow(I, t, row);
    BindKeys(e, t, row);
    assert RowOf(Bind(e, t.vars, row), t, stored);
    forall v | v in ix.outVars ensures v in VarsOf(t) && InEquality(all, v) {
      OutVarsOfJoin(all, cs, t, e, v);
    }
  }

  lemma {:induction false} KeptRow(I: Interp, ix: Index, rows: seq<Row>, row: Row)
    requires row in rows && Keeps(I, ix, row)
    ensures Columns(I, ix.table, row, ix.table.vars) in Built(I, ix, rows)
    decreases |rows|
  {
    hide Keeps, Columns;
    if rows[0] != row { KeptRow(I, ix, rows[1..], row); }
  }

  // ---------- a scanned table ----------

  lemma ScanRow(I: Interp, all: seq<Clause>, columns: set<Var>, tables: seq<Table>, cs: seq<Clause>, e: Env,
      sources: seq<Index>,
                i: nat, row: Row)
    requires Good(I, all, columns, tables, cs, e, sources) && i < |tables|
    requires forall c | c in cs :: !Participant(c, VarsOf(tables[i]))
    ensures var t := tables[i];
            if AllHold(I, Chosen(cs, t, e, ToScan) + Chosen(cs, t, e, ToPush), Bind(e, t.vars, row)) then Settled(I,
                cs, t, row, e)
            else Answers(I, Without(tables, i), all, Bind(e, t.vars, row)) == multiset{}
  {
    hide BuildVarGroups, Pairs, Answers, SourceOk, ProbesOf, Bind;
    var t := tables[i];
    ApartFrom(tables, e.Keys, i);
    ApartWithout(tables, e.Keys, i);
    assert e.Keys + VarsOf(t) + AllVars(Without(tables, i)) == columns;
    JoinClausesCross(I, all, columns, cs, t, e);
    forall c | c in cs ensures Kind(c, t, e) != ToJoin {
      if c in Chosen(cs, t, e, ToJoin) { assert false; }
    }
    if !Settled(I, cs, t, row, e) {
      FailsHere(I, all, columns, cs, t, Without(tables, i), row, e);
      NotScanned(I, cs, t, row, e);
    }
  }

  lemma NotScanned(I: Interp, cs: seq<Clause>, t: Table, row: Row, e: Env)
    requires !Settled(I, cs, t, row, e) && forall c | c in cs :: Kind(c, t, e) != ToJoin
    ensures !AllHold(I, Chosen(cs, t, e, ToScan) + Chosen(cs, t, e, ToPush), Bind(e, t.vars, row))
  {
    hide Bind, Classify, Holds;
    var c :| c in cs && Kind(c, t, e) != Left && !Holds(I, c, Bind(e, t.vars, row));
    assert c in Chosen(cs, t, e, ToScan) || c in Chosen(cs, t, e, ToPush);
    assert c in Chosen(cs, t, e, ToScan) + Chosen(cs, t, e, ToPush);
  }

  // ---------- the whole plan ----------

  ghost function PlanAt(all: seq<Clause>, tables: seq<Table>, cs: seq<Clause>, e: Env, sources: seq<Index>): Plan {
    PlanFrom(tables, cs, e.Keys, BuildVarGroups(Pairs(all)), sources)
  }

  ghost predicate Correct(I: Interp, all: seq<Clause>, tables: seq<Table>, cs: seq<Clause>, e: Env,
      sources: seq<Index>) {
    multiset(Eval(I, PlanAt(all, tables, cs, e, sources), e)) == Answers(I, tables, all, e)
  }

  lemma NothingLeft(I: Interp, all: seq<Clause>, columns: set<Var>, cs: seq<Clause>, e: Env, sources: seq<Index>)
    requires Good(I, all, columns, [], cs, e, sources)
    ensures Correct(I, all, [], cs, e, sources)
  {
    hide SourcesOk, BuildVarGroups, Pairs, Holds;
    assert AllHold(I, cs, e) <==> AllHold(I, all, e);
  }

  lemma {:induction false} PlanCorrect(I: Interp, all: seq<Clause>, columns: set<Var>, tables: seq<Table>,
      cs: seq<Clause>, e: Env, sources: seq<Index>)
    requires Good(I, all, columns, tables, cs, e, sources)
    ensures Correct(I, all, tables, cs, e, sources)
    decreases |tables|
  {
    if tables == [] {
      NothingLeft(I, all, columns, cs, e, sources);
    } else {
      var i := Pick(tables, cs, e.Keys);
      if exists c | c in cs :: Participant(c, VarsOf(tables[i])) {
        JoinCorrect(I, all, columns, tables, cs, e, sources);
      } else {
        ScanCorrect(I, all, columns, tables, cs, e, sources);
      }
    }
  }

  lemma {:induction false} ScanCorrect(I: Interp, all: seq<Clause>, columns: set<Var>, tables: seq<Table>,
      cs: seq<Clause>, e: Env, sources: seq<Index>)
    requires Good(I, all, columns, tables, cs, e, sources) && tables != []
    requires forall c | c in cs :: !Participant(c, VarsOf(tables[Pick(tables, cs, e.Keys)]))
    ensures Correct(I, all, tables, cs, e, sources)
    decreases |tables|, 0
  {
    hide Good, Eval, Answers, AllHold, BuildVarGroups, Pairs;
    var i := Pick(tables, cs, e.Keys);
    var t, rest := tables[i], Without(tables, i);
    var left := Chosen(cs, t, e, Left);
    var filters := Chosen(cs, t, e, ToScan) + Chosen(cs, t, e, ToPush);
    var plan := PlanFrom(rest, left, VarsOf(t) + e.Keys, BuildVarGroups(Pairs(all)), sources);
    forall row | row in t.rows ensures RowDone(I, t, row, AllHold(I, filters, Bind(e, t.vars, row)), plan, rest, all,
        e) {
      ScanRow(I, all, columns, tables, cs, e, sources, i, row);
      if AllHold(I, filters, Bind(e, t.vars, row)) {
        NextGood(I, all, columns, tables, cs, e, sources, i, row, sources);
        PlanCorrect(I, all, columns, rest, left, Bind(e, t.vars, row), sources);
        BindKeys(e, t, row);
        assert Bind(e, t.vars, row).Keys == VarsOf(t) + e.Keys;
      }
    }
    ScanSums(I, t, t.rows, filters, plan, rest, all, e);
    ScanPlan(I, all, tables, cs, e, sources);
    GoodApart(I, all, columns, tables, cs, e, sources);
    PickFirst(I, tables, i, all, e);
  }

  lemma GoodApart(I: Interp, all: seq<Clause>, columns: set<Var>, tables: seq<Table>, cs: seq<Clause>, e: Env,
      sources: seq<Index>)
    requires Good(I, all, columns, tables, cs, e, sources)
    ensures Apart(tables, e.Keys) && forall c | c in cs :: c in all
  {
  }

  lemma ScanPlan(I: Interp, all: seq<Clause>, tables: seq<Table>, cs: seq<Clause>, e: Env, sources: seq<Index>)
    requires tables != []
    requires forall c | c in cs :: !Participant(c, VarsOf(tables[Pick(tables, cs, e.Keys)]))
    ensures var i := Pick(tables, cs, e.Keys);
            var t := tables[i];
            var filters := Chosen(cs, t, e, ToScan) + Chosen(cs, t, e, ToPush);
            var plan := PlanFrom(Without(tables, i), Chosen(cs, t, e, Left), VarsOf(t) + e.Keys,
                BuildVarGroups(Pairs(all)), sources);
            Eval(I, PlanAt(all, tables, cs, e, sources), e) == EvalRows(I, t.rows, t.vars, filters, plan, e)
  {
    hide BuildVarGroups, Pairs, EvalRows;
  }

  lemma {:induction false} JoinCorrect(I: Interp, all: seq<Clause>, columns: set<Var>, tables: seq<Table>,
      cs: seq<Clause>, e: Env, sources: seq<Index>)
    requires Good(I, all, columns, tables, cs, e, sources) && tables != []
    requires exists c | c in cs :: Participant(c, VarsOf(tables[Pick(tables, cs, e.Keys)]))
    ensures Correct(I, all, tables, cs, e, sources)
    decreases |tables|, 0
  {
    hide Good, Eval, Answers, AllHold, BuildVarGroups, Pairs, PlannedIndex, Joins;
    var i := Pick(tables, cs, e.Keys);
    var t, rest := tables[i], Without(tables, i);
    var left := Chosen(cs, t, e, Left);
    var filters := Chosen(cs, t, e, ToPush);
    var ix := PlannedIndex(all, t, cs, e, sources, |rest|);
    var key := Read(I, e, InVars(Chosen(cs, t, e, ToJoin), VarsOf(t)));
    var plan := PlanFrom(rest, left, VarsOf(t) + e.Keys, BuildVarGroups(Pairs(all)), sources + [ix]);
    IndexTable(all, t, cs, e, sources, |rest|);
    GoodApart(I, all, columns, tables, cs, e, sources);
    forall row | row in t.rows ensures RowDone(I, t, row, Joins(I, ix, row, filters, key, e), plan, rest, all, e) {
      JoinRow(I, all, columns, tables, cs, e, sources, i, row, |rest|);
      if Joins(I, ix, row, filters, key, e) {
        assert Keeps(I, ix, row) by { JoinsKeeps(I, ix, row, filters, key, e); }
        NewSourceOk(I, all, cs, t, row, e, sources, |rest|);
        NextGood(I, all, columns, tables, cs, e, sources, i, row, sources + [ix]);
        PlanCorrect(I, all, columns, rest, left, Bind(e, t.vars, row), sources + [ix]);
        BindKeys(e, t, row);
        assert Bind(e, t.vars, row).Keys == VarsOf(t) + e.Keys;
      }
    }
    JoinSums(I, ix, t.rows, filters, key, plan, rest, all, e);
    JoinPlan(I, all, tables, cs, e, sources);
    PickFirst(I, tables, i, all, e);
  }

  lemma JoinsKeeps(I: Interp, ix: Index, row: Row, filters: seq<Clause>, key: Row, e: Env)
    requires Joins(I, ix, row, filters, key, e)
    ensures Keeps(I, ix, row)
  {
  }

  lemma IndexTable(all: seq<Clause>, t: Table, cs: seq<Clause>, e: Env, sources: seq<Index>, key: nat)
    ensures PlannedIndex(all, t, cs, e, sources, key).table == t
  {
  }

  lemma JoinPlan(I: Interp, all: seq<Clause>, tables: seq<Table>, cs: seq<Clause>, e: Env, sources: seq<Index>)
    requires tables != []
    requires exists c | c in cs :: Participant(c, VarsOf(tables[Pick(tables, cs, e.Keys)]))
    ensures var i := Pick(tables, cs, e.Keys);
            var t, rest := tables[i], Without(tables, i);
            var ix := PlannedIndex(all, t, cs, e, sources, |rest|);
            var key := Read(I, e, InVars(Chosen(cs, t, e, ToJoin), VarsOf(t)));
            var plan := PlanFrom(rest, Chosen(cs, t, e, Left), VarsOf(t) + e.Keys, BuildVarGroups(Pairs(all)),
                sources + [ix]);
            Eval(I, PlanAt(all, tables, cs, e, sources), e)
            == EvalRows(I, Matches(I, ix, Built(I, ix, t.rows), key), t.vars, Chosen(cs, t, e, ToPush), plan, e)
  {
    hide BuildVarGroups, Pairs, EvalRows, Matches, Built, ProbesOf, InVars, OutVars;
  }

  /** Main result: for every list of tables with their own columns and every list of clauses, running
      the planned program gives exactly the multiset of rows of the cross product that satisfy all
      clauses. */
  lemma QueryCorrect(I: Interp, tables: seq<Table>, cs: seq<Clause>)
    requires Apart(tables, {}) && forall c | c in cs :: WellScoped(I, c, AllVars(tables))
    ensures multiset(Eval(I, PlanQuery(tables, cs), map[])) == Answers(I, tables, cs, map[])
  {
    var e: Env := map[];
    assert e.Keys == {};
    PlanCorrect(I, cs, AllVars(tables), tables, cs, e, []);
  }

  // ---------- the order of the tables ----------

  lemma WithoutMultiset(tables: seq<Table>, i: nat)
    requires i < |tables|
    ensures multiset(tables) == multiset(Without(tables, i)) + multiset{tables[i]}
  {
    assert tables == tables[..i] + [tables[i]] + tables[i + 1..];
  }

  /** Where the first table of one order stands in another. */
  lemma SamePlace(tables: seq<Table>, order: seq<Table>) returns (i: nat)
    requires multiset(tables) == multiset(order) && order != []
    ensures i < |tables| && tables[i] == order[0]
    ensures multiset(Without(tables, i)) == multiset(order[1..])
  {
    assert order == [order[0]] + order[1..];
    assert order[0] in multiset(tables);
    i :| 0 <= i < |tables| && tables[i] == order[0];
    WithoutMultiset(tables, i);
    assert multiset(order) == multiset{order[0]} + multiset(order[1..]);
    assert multiset(Without(tables, i)) == multiset(tables) - multiset{order[0]};
    assert multiset(order[1..]) == multiset(order) - multiset{order[0]};
  }

  lemma {:induction false} ApartPermuted(tables: seq<Table>, order: seq<Table>, bound: set<Var>)
    requires multiset(tables) == multiset(order) && Apart(tables, bound)
    ensures Apart(order, bound) && AllVars(order) == AllVars(tables)
    decreases |order|
  {
    if order == [] {
      assert multiset(tables) == multiset{};
      assert tables == [];
    } else {
      var i := SamePlace(tables, order);
      ApartFrom(tables, bound, i);
      ApartWithout(tables, bound, i);
      ApartPermuted(Without(tables, i), order[1..], bound + VarsOf(tables[i]));
    }
  }

  /** The cross product does not depend on the order of the tables. */
  lemma {:induction false} AnswersPermuted(I: Interp, tables: seq<Table>, order: seq<Table>, cs: seq<Clause>, e: Env)
    requires multiset(tables) == multiset(order) && Apart(tables, e.Keys)
    ensures Answers(I, tables, cs, e) == Answers(I, order, cs, e)
    decreases |order|, 0
  {
    if order == [] {
      assert multiset(tables) == multiset{};
      assert tables == [];
    } else {
      var i := SamePlace(tables, order);
      PickFirst(I, tables, i, cs, e);
      ApartFrom(tables, e.Keys, i);
      ApartWithout(tables, e.Keys, i);
      RowsPermuted(I, order[0], order[0].rows, Without(tables, i), order[1..], cs, e);
    }
  }

  lemma {:induction false} RowsPermuted(I: Interp, t: Table, rows: seq<Row>, rest: seq<Table>, order: seq<Table>,
                                        cs: seq<Clause>, e: Env)
    requires multiset(rest) == multiset(order) && Apart(rest, e.Keys + VarsOf(t))
    ensures RowAnswers(I, t, rows, rest, cs, e) == RowAnswers(I, t, rows, order, cs, e)
    decreases |order|, 1 + |rows|
  {
    hide Answers;
    if rows != [] {
      BindKeys(e, t, rows[0]);
      AnswersPermuted(I, rest, order, cs, Bind(e, t.vars, rows[0]));
      RowsPermuted(I, t, rows[1..], rest, order, cs, e);
    }
  }

  /** Whatever order the planner is given the tables in, the result is the same. */
  lemma OrderIrrelevant(I: Interp, tables: seq<Table>, order: seq<Table>, cs: seq<Clause>)
    requires multiset(tables) == multiset(order) && Apart(tables, {})
    requires forall c | c in cs :: WellScoped(I, c, AllVars(tables))
    ensures multiset(Eval(I, PlanQuery(order, cs), map[])) == Answers(I, tables, cs, map[])
  {
    hide Eval, PlanQuery;
    var e: Env := map[];
    assert e.Keys == {};
    ApartPermuted(tables, order, {});
    QueryCorrect(I, order, cs);
    AnswersPermuted(I, tables, order, cs, e);
  }

  predicate HasScanClause(t: Table, cs: seq<Clause>) {
    exists c | c in cs :: c.freeVars <= VarsOf(t) && c.scanOk
  }

  function Filtered(tables: seq<Table>, cs: seq<Clause>, has: bool): seq<Table> {
    if tables == [] then [] else
    (if HasScanClause(tables[0], cs) == has then [tables[0]] else []) + Filtered(tables[1..], cs, has)
  }

  /** Stable: in front of the first table that is not smaller. */
  function Insert(t: Table, sorted: seq<Table>, size: Table -> nat): seq<Table> {
    if sorted == [] || size(t) <= size(sorted[0]) then [t] + sorted
    else [sorted[0]] + Insert(t, sorted[1..], size)
  }

  function StableSort(tables: seq<Table>, size: Table -> nat): seq<Table> {
    if tables == [] then [] else Insert(tables[0], StableSort(tables[1..], size), size)
  }

  /** Tables with a scan clause first, smaller ones before larger. */
  function InitialJoinOrder(tables: seq<Table>, cs: seq<Clause>, size: Table -> nat): seq<Table> {
    StableSort(Filtered(tables, cs, true), size) + StableSort(Filtered(tables, cs, false), size)
  }

  lemma {:induction false} FilteredMultiset(tables: seq<Table>, cs: seq<Clause>)
    ensures multiset(Filtered(tables, cs, true)) + multiset(Filtered(tables, cs, false)) == multiset(tables)
  {
    hide HasScanClause;
    if tables != [] {
      FilteredMultiset(tables[1..], cs);
      assert tables == [tables[0]] + tables[1..];
    }
  }

  lemma {:induction false} InsertMultiset(t: Table, sorted: seq<Table>, size: Table -> nat)
    ensures multiset(Insert(t, sorted, size)) == multiset(sorted) + multiset{t}
  {
    if sorted != [] && size(t) > size(sorted[0]) {
      InsertMultiset(t, sorted[1..], size);
      assert sorted == [sorted[0]] + sorted[1..];
    }
  }

  predicate Ascending(tables: seq<Table>, size: Table -> nat) {
    |tables| > 1 ==> size(tables[0]) <= size(tables[1]) && Ascending(tables[1..], size)
  }

  lemma {:induction false} InsertAscending(t: Table, sorted: seq<Table>, size: Table -> nat)
    requires Ascending(sorted, size)
    ensures Ascending(Insert(t, sorted, size), size)
  {
    if sorted != [] {
      var r := Insert(t, sorted, size);
      if size(t) <= size(sorted[0]) {
        assert r[1..] == sorted;
      } else {
        InsertAscending(t, sorted[1..], size);
        assert r[1..] == Insert(t, sorted[1..], size);
      }
    }
  }

  /** A permutation in ascending order. */
  lemma {:induction false} Sorted(tables: seq<Table>, size: Table -> nat)
    ensures multiset(StableSort(tables, size)) == multiset(tables)
    ensures Ascending(StableSort(tables, size), size)
  {
    if tables != [] {
      Sorted(tables[1..], size);
      InsertMultiset(tables[0], StableSort(tables[1..], size), size);
      InsertAscending(tables[0], StableSort(tables[1..], size), size);
      assert tables == [tables[0]] + tables[1..];
    }
  }

  /** Main result for the order actually used, whatever the table sizes are. */
  lemma InitialOrderCorrect(I: Interp, tables: seq<Table>, cs: seq<Clause>, size: Table -> nat)
    requires Apart(tables, {}) && forall c | c in cs :: WellScoped(I, c, AllVars(tables))
    ensures multiset(Eval(I, PlanQuery(InitialJoinOrder(tables, cs, size), cs), map[])) == Answers(I, tables, cs, map[])
  {
    FilteredMultiset(tables, cs);
    Sorted(Filtered(tables, cs, true), size);
    Sorted(Filtered(tables, cs, false), size);
    OrderIrrelevant(I, tables, InitialJoinOrder(tables, cs, size), cs);
  }
}
