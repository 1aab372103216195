/** The join planner: it orders the tables of a query, sorts the WHERE clauses into scan filters, hash
    join keys and pushed-down filters, and lets the indexes of earlier joins filter later ones. The
    emitted program is a Plan, and Eval says what running it gives. */
module Planner {
  import opened VarGroups

  /** Scalars compare by number, whatever their representation. */
  datatype Value = Null | Scalar(number: int, form: int)

  predicate SqlEq(x: Value, y: Value) {
    x.Scalar? && y.Scalar? && x.number == y.number
  }

  type Env = map<Var, Value>

  const NIL: Var := 0

  type Row = seq<Value>

  datatype Table = Table(vars: seq<Var>, rows: seq<Row>)

  /** Equals is an equality between two symbols; any other predicate is known by a number. */
  datatype Source = Equals(lhs: Var, rhs: Var) | General(id: nat)

  datatype Clause = Clause(src: Source, freeVars: set<Var>, scanOk: bool)

  /** truth says when a general predicate is exactly true; outer gives the symbols that are not
      columns of the query. */
  datatype Interp = Interp(truth: (nat, Env) -> bool, outer: Var -> Value)

  function Val(I: Interp, e: Env, v: Var): Value {
    if v in e then e[v] else I.outer(v)
  }

  function Read(I: Interp, e: Env, vars: seq<Var>): Row {
    seq(|vars|, i requires 0 <= i < |vars| => Val(I, e, vars[i]))
  }

  predicate Holds(I: Interp, c: Clause, e: Env) {
    match c.src
    case Equals(lhs, rhs) => SqlEq(Val(I, e, lhs), Val(I, e, rhs))
    case General(id) => I.truth(id, e)
  }

  predicate AllHold(I: Interp, cs: seq<Clause>, e: Env) {
    forall c | c in cs :: Holds(I, c, e)
  }

  /** Of columns with the same name the last one counts. */
  function Bound(vars: seq<Var>, row: Row): Env {
    if vars == [] then map[] else
    var n := |vars| - 1;
    Bound(vars[..n], row)[vars[n] := if n < |row| then row[n] else Null]
  }

  function Bind(e: Env, vars: seq<Var>, row: Row): Env {
    e + Bound(vars, row)
  }

  // ---------- the emitted program ----------

  /** How an earlier join's index filters the rows of a later one: its keys are looked up directly, or
      the values of the join variables in its rows are. */
  datatype Probe =
    | Reuse(source: Index, outVars: seq<Var>)
    | Keys(source: Index, inVars: seq<Var>, outVars: seq<Var>)

  /** A hash index over a table, kept under `key` once it is built. */
  datatype Index = Index(key: nat, table: Table, scan: seq<Clause>, probes: seq<Probe>, outVars: seq<Var>)

  datatype Plan =
    | Scan(table: Table, filters: seq<Clause>, rest: Plan)
    | Join(index: Index, inVars: seq<Var>, filters: seq<Clause>, rest: Plan)
    | Filter(clauses: seq<Clause>)

  predicate KeysMatch(a: Row, b: Row) {
    |a| == |b| && forall i | 0 <= i < |a| :: SqlEq(a[i], b[i])
  }

  /** The columns `vars` of a row of the table. */
  function Columns(I: Interp, t: Table, row: Row, vars: seq<Var>): Row {
    Read(I, Bound(t.vars, row), vars)
  }

  function IndexRows(I: Interp, ix: Index): seq<Row>
    decreases ix, 1, 0
  {
    Built(I, ix, ix.table.rows)
  }

  function Built(I: Interp, ix: Index, rows: seq<Row>): seq<Row>
    decreases ix, 0, |rows|
  {
    if rows == [] then [] else
    (if Keeps(I, ix, rows[0]) then [Columns(I, ix.table, rows[0], ix.table.vars)] else []) + Built(I, ix, rows[1..])
  }

  predicate Keeps(I: Interp, ix: Index, row: Row)
    decreases ix, 0, 0
  {
    AllHold(I, ix.scan, Bound(ix.table.vars, row)) &&
    forall p | p in ix.probes :: Passes(I, p, Bound(ix.table.vars, row))
  }

  predicate Passes(I: Interp, p: Probe, e: Env)
    decreases p, 2, 0
  {
    match p
    case Reuse(source, outVars) =>
      exists row | row in IndexRows(I, source) ::
        KeysMatch(Columns(I, source.table, row, source.outVars), Read(I, e, outVars))
    case Keys(source, inVars, outVars) =>
      exists row | row in IndexRows(I, source) ::
        KeysMatch(Columns(I, source.table, row, inVars), Read(I, e, outVars))
  }

  /** The rows of the index under a key, in scan order. */
  function Matches(I: Interp, ix: Index, rows: seq<Row>, key: Row): seq<Row> {
    if rows == [] then [] else
    (if KeysMatch(Columns(I, ix.table, rows[0], ix.outVars), key) then [rows[0]] else [])
    + Matches(I, ix, rows[1..], key)
  }

  function Eval(I: Interp, plan: Plan, e: Env): seq<Env>
    decreases plan, 1, 0
  {
    match plan
    case Scan(table, filters, rest) => EvalRows(I, table.rows, table.vars, filters, rest, e)
    case Join(ix, inVars, filters, rest) =>
      EvalRows(I, Matches(I, ix, IndexRows(I, ix), Read(I, e, inVars)), ix.table.vars, filters, rest, e)
    case Filter(clauses) => if AllHold(I, clauses, e) then [e] else []
  }

  function EvalRows(I: Interp, rows: seq<Row>, vars: seq<Var>, filters: seq<Clause>, rest: Plan, e: Env): seq<Env>
    decreases rest, 2, |rows|
  {
    if rows == [] then [] else
    var e' := Bind(e, vars, rows[0]);
    (if AllHold(I, filters, e') then Eval(I, rest, e') else []) + EvalRows(I, rows[1..], vars, filters, rest, e)
  }

  // ---------- planning ----------

  function VarsOf(t: Table): set<Var> {
    set v | v in t.vars
  }

  predicate EquiJoin(c: Clause, vars: set<Var>) {
    c.src.Equals? && c.src.lhs in vars && c.src.rhs in vars
  }

  predicate Participant(c: Clause, vars: set<Var>) {
    c.src.Equals? && (c.src.lhs in vars || c.src.rhs in vars)
  }

  datatype Class = ToScan | ToJoin | ToPush | Left

  function Classify(c: Clause, newVars: set<Var>, vars: set<Var>): Class {
    if c.freeVars <= newVars && c.scanOk then ToScan
    else if EquiJoin(c, vars) then ToJoin
    else if c.freeVars <= vars then ToPush
    else Left
  }

  function Select(cs: seq<Clause>, newVars: set<Var>, vars: set<Var>, k: Class): (r: seq<Clause>)
    ensures forall c :: c in r <==> c in cs && Classify(c, newVars, vars) == k
  {
    if cs == [] then [] else
    var rest := Select(cs[1..], newVars, vars, k);
    assert forall c :: c in cs <==> c == cs[0] || c in cs[1..];
    if Classify(cs[0], newVars, vars) == k then [cs[0]] + rest else rest
  }

  /** The first table with an equality to what is bound already, or else the first. */
  function Pick(tables: seq<Table>, cs: seq<Clause>, vars: set<Var>): (i: nat)
    requires tables != []
    ensures i < |tables|
  {
    var i := FirstJoinable(tables, cs, vars);
    if i < |tables| then i else 0
  }

  function FirstJoinable(tables: seq<Table>, cs: seq<Clause>, vars: set<Var>): (i: nat)
    ensures i <= |tables|
  {
    if tables == [] then 0
    else if exists c | c in cs :: EquiJoin(c, VarsOf(tables[0]) + vars) then 0
    else 1 + FirstJoinable(tables[1..], cs, vars)
  }

  function Without(tables: seq<Table>, i: nat): seq<Table>
    requires i < |tables|
  {
    tables[..i] + tables[i + 1..]
  }

  function OutVars(cs: seq<Clause>, newVars: set<Var>): seq<Var> {
    if cs == [] then [] else
    (if cs[0].src.Equals? then OneSide(cs[0].src, newVars, true) else []) + OutVars(cs[1..], newVars)
  }

  function InVars(cs: seq<Clause>, newVars: set<Var>): seq<Var> {
    if cs == [] then [] else
    (if cs[0].src.Equals? then OneSide(cs[0].src, newVars, false) else []) + InVars(cs[1..], newVars)
  }

  /** The operands of an equality that are new, or that are not. */
  function OneSide(src: Source, newVars: set<Var>, wantNew: bool): seq<Var>
    requires src.Equals?
  {
    (if (src.lhs in newVars) == wantNew then [src.lhs] else [])
    + if (src.rhs in newVars) == wantNew then [src.rhs] else []
  }

  /** The groups of these variables; a variable without one is passed over. */
  function GroupsOf(vars: seq<Var>, groups: seq<seq<Var>>): seq<seq<Var>> {
    if vars == [] then [] else
    (if Group(vars[0], groups) == [] then [] else [Group(vars[0], groups)]) + GroupsOf(vars[1..], groups)
  }

  function Group(v: Var, groups: seq<seq<Var>>): (g: seq<Var>)
    ensures g != [] ==> v in g && g in groups
    ensures g == [] ==> forall h | h in groups :: v !in h
  {
    if groups == [] then [] else if v in groups[0] then groups[0] else Group(v, groups[1..])
  }

  function FirstIn(vars: seq<Var>, g: seq<Var>): (r: seq<Var>)
    ensures |r| <= 1
    ensures r == [] ==> !Meets(vars, g)
    ensures r != [] ==> r[0] in vars && r[0] in g
  {
    if vars == [] then [] else if vars[0] in g then [vars[0]] else FirstIn(vars[1..], g)
  }

  function FirstOfEach(vars: seq<Var>, groups: seq<seq<Var>>): seq<Var> {
    if groups == [] then [] else FirstIn(vars, groups[0]) + FirstOfEach(vars, groups[1..])
  }

  function Among(vars: seq<Var>, allowed: set<Var>): (r: seq<Var>)
    ensures forall v :: v in r <==> v in vars && v in allowed
  {
    if vars == [] then [] else
    var rest := Among(vars[1..], allowed);
    assert forall v :: v in vars <==> v == vars[0] || v in vars[1..];
    if vars[0] in allowed then [vars[0]] + rest else rest
  }

  function Position(v: Var, vars: seq<Var>): (i: nat)
    requires v in vars
    ensures i < |vars| && vars[i] == v
  {
    if vars[0] == v then 0 else 1 + Position(v, vars[1..])
  }

  /** The out-variables at the positions of some of the in-variables. */
  function Paired(some: seq<Var>, inVars: seq<Var>, outVars: seq<Var>): (r: seq<Var>)
    requires forall v | v in some :: v in inVars
    ensures |r| == |some|
  {
    seq(|some|, i requires 0 <= i < |some| => Nth(Position(some[i], inVars), outVars))
  }

  function Nth(i: nat, vars: seq<Var>): Var {
    if i < |vars| then vars[i] else NIL
  }

  /** What one earlier index can contribute. */
  function ProbeOf(source: Index, inVars: seq<Var>, outVars: seq<Var>, groups: seq<seq<Var>>): seq<Probe>
  {
    var sourceGroups := GroupsOf(source.outVars, groups);
    if sourceGroups != [] && forall g | g in sourceGroups :: Meets(outVars, g) then
      [Reuse(source, FirstOfEach(outVars, sourceGroups))]
    else
      var sipIn := Among(inVars, VarsOf(source.table));
      if sipIn == [] then [] else [Keys(source, sipIn, Paired(sipIn, inVars, outVars))]
  }

  function ProbesOf(sources: seq<Index>, inVars: seq<Var>, outVars: seq<Var>, groups: seq<seq<Var>>): seq<Probe>
  {
    if sources == [] then [] else
    ProbeOf(sources[0], inVars, outVars, groups) + ProbesOf(sources[1..], inVars, outVars, groups)
  }

  /** The clauses are sorted once per table; what is left at the end is filtered last. */
  function PlanFrom(tables: seq<Table>, cs: seq<Clause>, vars: set<Var>, groups: seq<seq<Var>>,
      sources: seq<Index>): Plan
    decreases |tables|
  {
    if tables == [] then Filter(cs) else
    var i := Pick(tables, cs, vars);
    var t, rest := tables[i], Without(tables, i);
    var newVars := VarsOf(t);
    var scan := Select(cs, newVars, newVars + vars, ToScan);
    var equi := Select(cs, newVars, newVars + vars, ToJoin);
    var push := Select(cs, newVars, newVars + vars, ToPush);
    var left := Select(cs, newVars, newVars + vars, Left);
    var inVars, outVars := InVars(equi, newVars), OutVars(equi, newVars);
    if exists c | c in cs :: Participant(c, newVars) then
      var ix := Index(|rest|, t, scan, ProbesOf(sources, inVars, outVars, groups), outVars);
      Join(ix, inVars, push, PlanFrom(rest, left, newVars + vars, groups, sources + [ix]))
    else
      Scan(t, scan + push, PlanFrom(rest, left, newVars + vars, groups, sources))
  }

  function Pairs(cs: seq<Clause>): seq<seq<Var>> {
    if cs == [] then [] else
    (if cs[0].src.Equals? then [[cs[0].src.lhs, cs[0].src.rhs]] else []) + Pairs(cs[1..])
  }

  function PlanQuery(tables: seq<Table>, cs: seq<Clause>): Plan {
    PlanFrom(tables, cs, {}, BuildVarGroups(Pairs(cs)), [])
  }
}
