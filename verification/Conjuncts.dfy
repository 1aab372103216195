/** Splitting WHERE into conjuncts and flattening join trees, under three-valued logic. */
module Conjuncts {
  import opened VarGroups
  import opened Planner
  import PlannerProof

  datatype Truth = Yes | No | Unknown

  function Both(a: Truth, b: Truth): Truth {
    if a == No || b == No then No else if a == Yes && b == Yes then Yes else Unknown
  }

  function Either(a: Truth, b: Truth): Truth {
    if a == Yes || b == Yes then Yes else if a == No && b == No then No else Unknown
  }

  function Rank(t: Truth): nat {
    match t
    case No => 0
    case Unknown => 1
    case Yes => 2
  }

  /** AND takes the lesser and OR the greater truth value; an equality is unknown exactly with a NULL. */
  lemma TruthTables(a: Truth, b: Truth, x: Value, y: Value)
    ensures Rank(Both(a, b)) <= Rank(a) && Rank(Both(a, b)) <= Rank(b) && Both(a, b) in {a, b}
    ensures Rank(Either(a, b)) >= Rank(a) && Rank(Either(a, b)) >= Rank(b) && Either(a, b) in {a, b}
    ensures Equality(x, y) == Unknown <==> x.Null? || y.Null?
    ensures Equality(x, y) == Yes <==> SqlEq(x, y)
  {
  }

  datatype Expr = And(left: Expr, right: Expr) | Or(left: Expr, right: Expr) | Same(x: Var, y: Var) | Atom(id: nat)

  function Equality(x: Value, y: Value): Truth {
    if x.Null? || y.Null? then Unknown else if SqlEq(x, y) then Yes else No
  }

  /** atoms gives the meaning of all other expressions. */
  function Meaning(atoms: (nat, Env) -> Truth, expr: Expr, e: Env): Truth {
    match expr
    case And(l, r) => Both(Meaning(atoms, l, e), Meaning(atoms, r, e))
    case Or(l, r) => Either(Meaning(atoms, l, e), Meaning(atoms, r, e))
    case Same(x, y) => Equality(if x in e then e[x] else Null, if y in e then e[y] else Null)
    case Atom(id) => atoms(id, e)
  }

  function ColumnsOf(columns: nat -> set<Var>, expr: Expr): set<Var> {
    match expr
    case And(l, r) => ColumnsOf(columns, l) + ColumnsOf(columns, r)
    case Or(l, r) => ColumnsOf(columns, l) + ColumnsOf(columns, r)
    case Same(x, y) => {x, y}
    case Atom(id) => columns(id)
  }

  /** A disjunction is true when either side is, a conjunction when both are. */
  lemma ConnectivesMean(atoms: (nat, Env) -> Truth, l: Expr, r: Expr, e: Env)
    ensures Rank(No) < Rank(Unknown) < Rank(Yes)
    ensures Meaning(atoms, Or(l, r), e) == Yes <==> Meaning(atoms, l, e) == Yes || Meaning(atoms, r, e) == Yes
    ensures Meaning(atoms, And(l, r), e) == Yes <==> Meaning(atoms, l, e) == Yes && Meaning(atoms, r, e) == Yes
    ensures Meaning(atoms, Or(l, r), e) == No <==> Meaning(atoms, l, e) == No && Meaning(atoms, r, e) == No
    ensures Meaning(atoms, And(l, r), e) == No <==> Meaning(atoms, l, e) == No || Meaning(atoms, r, e) == No
  {
  }

  function Intersection(a: seq<Expr>, b: seq<Expr>): (r: seq<Expr>)
    ensures forall c :: c in r <==> c in a && c in b
  {
    if a == [] then [] else
    var rest := Intersection(a[1..], b);
    assert forall c :: c in a <==> c == a[0] || c in a[1..];
    if a[0] in b then [a[0]] + rest else rest
  }

  /** The conjuncts of a predicate; of a disjunction, itself and the conjuncts that both sides share. */
  function AndClauses(expr: Expr): seq<Expr> {
    match expr
    case And(l, r) => AndClauses(l) + AndClauses(r)
    case Or(l, r) => [expr] + Intersection(AndClauses(l), AndClauses(r))
    case _ => [expr]
  }

  predicate Keeps(atoms: (nat, Env) -> Truth, cs: seq<Expr>, e: Env) {
    forall c | c in cs :: Meaning(atoms, c, e) == Yes
  }

  /** Main result for conjuncts: a predicate is exactly true when all its conjuncts are. */
  lemma {:induction false} ConjunctsKeepSameRows(atoms: (nat, Env) -> Truth, expr: Expr, e: Env)
    ensures Meaning(atoms, expr, e) == Yes <==> Keeps(atoms, AndClauses(expr), e)
  {
    match expr {
      case And(l, r) =>
        ConjunctsKeepSameRows(atoms, l, e);
        ConjunctsKeepSameRows(atoms, r, e);
        assert forall c :: c in AndClauses(expr) <==> c in AndClauses(l) || c in AndClauses(r);
      case Or(l, r) =>
        ConjunctsKeepSameRows(atoms, l, e);
        ConjunctsKeepSameRows(atoms, r, e);
        assert expr in AndClauses(expr);
        assert forall c :: c in AndClauses(expr) <==> c == expr || (c in AndClauses(l) && c in AndClauses(r));
      case _ =>
        assert expr in AndClauses(expr);
    }
  }

  /** A conjunct that both sides of a disjunction have is a conjunct of it, so that an equality common to
      all alternatives can be a join condition. */
  lemma CommonFactors(l: Expr, r: Expr, c: Expr)
    ensures c in AndClauses(Or(l, r)) <==> c == Or(l, r) || (c in AndClauses(l) && c in AndClauses(r))
  {
    var shared := Intersection(AndClauses(l), AndClauses(r));
    assert AndClauses(Or(l, r)) == [Or(l, r)] + shared;
  }

  lemma {:induction false} ConjunctColumns(columns: nat -> set<Var>, expr: Expr, c: Expr)
    requires c in AndClauses(expr)
    ensures ColumnsOf(columns, c) <= ColumnsOf(columns, expr)
  {
    match expr {
      case And(l, r) => if c in AndClauses(l) { ConjunctColumns(columns, l, c); } else { ConjunctColumns(columns, r,
          c); }
      case Or(l, r) => if c != expr { ConjunctColumns(columns, l, c); }
      case _ =>
    }
  }

  // ---------- join trees ----------

  datatype Cond = On(expr: Expr) | Using(pairs: seq<(Var, Var)>)

  datatype FromItem =
    | Base(vars: seq<Var>, rows: seq<Row>)
    | InnerJoin(left: FromItem, right: FromItem, cond: Cond)
    | LeftJoin(left: FromItem, right: FromItem, cond: Cond)

  /** An element of the flat FROM list; the right side of a left join stays one opaque element. */
  datatype Flat = FlatBase(vars: seq<Var>, rows: seq<Row>) | FlatLeft(right: FromItem, cond: Cond)

  /** USING as a conjunction of equalities, from left to right. */
  function UsingToOn(pairs: seq<(Var, Var)>): Expr
    requires pairs != []
  {
    var last := pairs[|pairs| - 1];
    if |pairs| == 1 then Same(last.0, last.1) else And(UsingToOn(pairs[..|pairs| - 1]), Same(last.0, last.1))
  }

  /** USING keeps a row exactly when all its pairs of columns are equal, NULL being equal to nothing. */
  predicate AllEqual(pairs: seq<(Var, Var)>, e: Env) {
    forall p | p in pairs :: p.0 in e && p.1 in e && SqlEq(e[p.0], e[p.1])
  }

  lemma {:induction false} UsingMeans(atoms: (nat, Env) -> Truth, columns: nat -> set<Var>, pairs: seq<(Var, Var)>,
      e: Env)
    requires pairs != []
    ensures Meaning(atoms, UsingToOn(pairs), e) == Yes <==> AllEqual(pairs, e)
    ensures forall v :: v in ColumnsOf(columns, UsingToOn(pairs)) <==> exists p :: p in pairs && (v == p.0 || v == p.1)
  {
    var init, last := pairs[..|pairs| - 1], pairs[|pairs| - 1];
    assert forall p :: p in pairs <==> p in init || p == last;
    if |pairs| > 1 { UsingMeans(atoms, columns, init, e); }
  }

  predicate CondOk(c: Cond) {
    c.Using? ==> c.pairs != []
  }

  function OnOf(c: Cond): Expr
    requires CondOk(c)
  {
    match c case On(expr) => expr case Using(pairs) => UsingToOn(pairs)
  }

  predicate ItemOk(item: FromItem) {
    match item
    case Base(_, _) => true
    case InnerJoin(l, r, c) => CondOk(c) && ItemOk(l) && ItemOk(r)
    case LeftJoin(l, _, c) => CondOk(c) && ItemOk(l)
  }

  function FlattenFrom(item: FromItem): seq<Flat> {
    match item
    case Base(vars, rows) => [FlatBase(vars, rows)]
    case InnerJoin(l, r, _) => FlattenFrom(l) + FlattenFrom(r)
    case LeftJoin(l, r, c) => FlattenFrom(l) + [FlatLeft(r, c)]
  }

  function FromWhereClauses(item: FromItem): seq<Expr>
    requires ItemOk(item)
  {
    match item
    case Base(_, _) => []
    case InnerJoin(l, r, c) => AndClauses(OnOf(c)) + (FromWhereClauses(l) + FromWhereClauses(r))
    case LeftJoin(l, _, _) => FromWhereClauses(l)
  }

  /** The columns a join tree binds. */
  function ItemVars(item: FromItem): set<Var> {
    match item
    case Base(vars, _) => set v | v in vars
    case InnerJoin(l, r, _) => ItemVars(l) + ItemVars(r)
    case LeftJoin(l, r, _) => ItemVars(l) + ItemVars(r)
  }

  /** How other expressions are evaluated and on which columns, and how a left join extends one row of
      its left side: by rows that bind the columns of its right side. */
  datatype World = World(atoms: (nat, Env) -> Truth, columns: nat -> set<Var>, leftRows: (FromItem, Cond,
      Env) -> seq<Env>) {
    ghost predicate Valid() {
      && (forall id, e, e' | SameOn(columns(id), e, e') :: atoms(id, e) == atoms(id, e'))
      && forall right, cond, e, e' | e' in leftRows(right, cond, e) :: Adds(e, e', ItemVars(right))
    }
  }

  predicate SameOn(vars: set<Var>, e: Env, e': Env) {
    forall v | v in vars :: v in e && v in e' && e[v] == e'[v]
  }

  predicate Scoped(w: World, expr: Expr, e: Env) {
    ColumnsOf(w.columns, expr) <= e.Keys
  }

  predicate Adds(e: Env, e': Env, vars: set<Var>) {
    e'.Keys == e.Keys + vars && forall v | v in e && v !in vars :: e'[v] == e[v]
  }

  // ---------- rows of the tree, and of the flat list ----------

  function BaseRows(vars: seq<Var>, rows: seq<Row>, e: Env): seq<Env> {
    if rows == [] then [] else [Bind(e, vars, rows[0])] + BaseRows(vars, rows[1..], e)
  }

  /** A table gives its rows, in order, each bound to its columns. */
  lemma {:induction false} BaseRowsAre(vars: seq<Var>, rows: seq<Row>, e: Env)
    ensures |BaseRows(vars, rows, e)| == |rows|
    ensures forall i | 0 <= i < |rows| :: BaseRows(vars, rows, e)[i] == Bind(e, vars, rows[i])
  {
    if rows != [] {
      BaseRowsAre(vars, rows[1..], e);
    }
  }

  function Filtered(w: World, cs: seq<Expr>, es: seq<Env>): seq<Env> {
    if es == [] then [] else (if Keeps(w.atoms, cs, es[0]) then [es[0]] else []) + Filtered(w, cs, es[1..])
  }

  /** What a join condition keeps: the rows on which an ON is true, or on which all columns of a USING
      agree. */
  predicate Accepts(w: World, c: Cond, e: Env) {
    match c
    case On(expr) => Meaning(w.atoms, expr, e) == Yes
    case Using(pairs) => AllEqual(pairs, e)
  }

  function Accepted(w: World, c: Cond, es: seq<Env>): seq<Env> {
    if es == [] then [] else (if Accepts(w, c, es[0]) then [es[0]] else []) + Accepted(w, c, es[1..])
  }

  lemma {:induction false} AcceptedIsFiltered(w: World, c: Cond, es: seq<Env>)
    requires CondOk(c)
    ensures Accepted(w, c, es) == Filtered(w, [OnOf(c)], es)
  {
    hide Meaning, UsingToOn, AllEqual;
    if es != [] {
      AcceptedIsFiltered(w, c, es[1..]);
      if c.Using? { UsingMeans(w.atoms, w.columns, c.pairs, es[0]); }
    }
  }

  function TreeRows(w: World, item: FromItem, e: Env): seq<Env>
    requires ItemOk(item)
    decreases item, 1, 0
  {
    match item
    case Base(vars, rows) => BaseRows(vars, rows, e)
    case InnerJoin(l, r, c) => Accepted(w, c, Product(w, TreeRows(w, l, e), r))
    case LeftJoin(l, r, c) => LeftAll(w, TreeRows(w, l, e), r, c)
  }

  function Product(w: World, es: seq<Env>, r: FromItem): seq<Env>
    requires ItemOk(r)
    decreases r, 2, |es|
  {
    if es == [] then [] else TreeRows(w, r, es[0]) + Product(w, es[1..], r)
  }

  function LeftAll(w: World, es: seq<Env>, r: FromItem, c: Cond): seq<Env> {
    if es == [] then [] else w.leftRows(r, c, es[0]) + LeftAll(w, es[1..], r, c)
  }

  function FlatStep(w: World, flat: Flat, e: Env): seq<Env> {
    match flat
    case FlatBase(vars, rows) => BaseRows(vars, rows, e)
    case FlatLeft(right, cond) => w.leftRows(right, cond, e)
  }

  /** Nested loops over a flat list, from one binding. */
  function FlatRows(w: World, flat: seq<Flat>, e: Env): seq<Env>
    decreases |flat|, 0, 0
  {
    if flat == [] then [e] else FlatAll(w, FlatStep(w, flat[0], e), flat[1..])
  }

  function FlatAll(w: World, es: seq<Env>, flat: seq<Flat>): seq<Env>
    decreases |flat|, 1, |es|
  {
    if es == [] then [] else FlatRows(w, flat, es[0]) + FlatAll(w, es[1..], flat)
  }

  lemma {:induction false} FlatAllAppend(w: World, a: seq<Env>, b: seq<Env>, flat: seq<Flat>)
    ensures FlatAll(w, a + b, flat) == FlatAll(w, a, flat) + FlatAll(w, b, flat)
    decreases |a|
  {
    hide FlatRows;
    if a == [] {
      assert a + b == b;
    } else {
      assert (a + b)[1..] == a[1..] + b;
      FlatAllAppend(w, a[1..], b, flat);
    }
  }

  lemma OneBinding(w: World, e: Env, flat: seq<Flat>)
    ensures FlatAll(w, [e], flat) == FlatRows(w, flat, e)
  {
    hide FlatRows;
    assert [e][1..] == [];
  }

  /** Loops over a concatenated list: the inner loops run from every binding of the outer ones. */
  lemma {:induction false} FlatTwice(w: World, a: seq<Flat>, b: seq<Flat>, e: Env)
    ensures FlatRows(w, a + b, e) == FlatAll(w, FlatRows(w, a, e), b)
    decreases |a|, 0, 0
  {
    if a == [] {
      assert a + b == b;
      OneBinding(w, e, b);
    } else {
      assert (a + b)[1..] == a[1..] + b;
      FlatTwiceAll(w, a[1..], b, FlatStep(w, a[0], e));
    }
  }

  lemma {:induction false} FlatTwiceAll(w: World, a: seq<Flat>, b: seq<Flat>, es: seq<Env>)
    ensures FlatAll(w, es, a + b) == FlatAll(w, FlatAll(w, es, a), b)
    decreases |a|, 1, |es|
  {
    if es != [] {
      FlatTwice(w, a, b, es[0]);
      FlatTwiceAll(w, a, b, es[1..]);
      FlatAllAppend(w, FlatRows(w, a, es[0]), FlatAll(w, es[1..], a), b);
    }
  }

  // ---------- filters move outwards ----------

  lemma {:induction false} FilteredAppend(w: World, cs: seq<Expr>, a: seq<Env>, b: seq<Env>)
    ensures Filtered(w, cs, a + b) == Filtered(w, cs, a) + Filtered(w, cs, b)
    decreases |a|
  {
    hide Keeps;
    if a == [] {
      assert a + b == b;
    } else {
      assert (a + b)[1..] == a[1..] + b;
      FilteredAppend(w, cs, a[1..], b);
    }
  }

  lemma OneFiltered(w: World, cs: seq<Expr>, e: Env)
    ensures Filtered(w, cs, [e]) == if Keeps(w.atoms, cs, e) then [e] else []
  {
    hide Keeps;
    assert [e][1..] == [];
  }

  lemma {:induction false} FilteredTwice(w: World, cs: seq<Expr>, ds: seq<Expr>, es: seq<Env>)
    ensures Filtered(w, cs, Filtered(w, ds, es)) == Filtered(w, cs + ds, es)
    decreases |es|
  {
    if es != [] {
      FilteredTwice(w, cs, ds, es[1..]);
      assert Keeps(w.atoms, cs + ds, es[0]) <==> Keeps(w.atoms, cs, es[0]) && Keeps(w.atoms, ds, es[0]) by {
        assert forall c :: c in cs + ds <==> c in cs || c in ds;
      }
      hide Keeps;
      if Keeps(w.atoms, ds, es[0]) {
        FilteredAppend(w, cs, [es[0]], Filtered(w, ds, es[1..]));
        OneFiltered(w, cs, es[0]);
      } else {
        assert [] + Filtered(w, ds, es[1..]) == Filtered(w, ds, es[1..]);
      }
    }
  }

  lemma {:induction false} FilteredSame(w: World, cs: seq<Expr>, ds: seq<Expr>, es: seq<Env>)
    requires forall e | e in es :: Keeps(w.atoms, cs, e) <==> Keeps(w.atoms, ds, e)
    ensures Filtered(w, cs, es) == Filtered(w, ds, es)
    decreases |es|
  {
    hide Keeps;
    if es != [] {
      assert es[0] in es;
      FilteredSame(w, cs, ds, es[1..]);
    }
  }

  /** What a flat element binds. */
  function FlatVars(flat: seq<Flat>): set<Var> {
    if flat == [] then {} else
    (match flat[0] case FlatBase(vars, _) => (set v | v in vars) case FlatLeft(right, _) => ItemVars(right))
    + FlatVars(flat[1..])
  }

  /** A clause over columns that are bound keeps its truth when more columns are bound. */
  lemma {:induction false} TruthStays(w: World, expr: Expr, e: Env, e': Env)
    requires w.Valid() && Scoped(w, expr, e) && PlannerProof.Extends(e, e')
    ensures Meaning(w.atoms, expr, e) == Meaning(w.atoms, expr, e')
  {
    match expr {
      case And(l, r) => TruthStays(w, l, e, e'); TruthStays(w, r, e, e');
      case Or(l, r) => TruthStays(w, l, e, e'); TruthStays(w, r, e, e');
      case Same(x, y) => assert x in e && y in e;
      case Atom(id) => assert SameOn(w.columns(id), e, e');
    }
  }

  lemma KeepsStays(w: World, cs: seq<Expr>, e: Env, e': Env)
    requires w.Valid() && (forall c | c in cs :: Scoped(w, c, e)) && PlannerProof.Extends(e, e')
    ensures Keeps(w.atoms, cs, e) <==> Keeps(w.atoms, cs, e')
  {
    forall c | c in cs ensures Meaning(w.atoms, c, e) == Meaning(w.atoms, c, e') { TruthStays(w, c, e, e'); }
  }

  // ---------- the flat list binds what the tree binds ----------

  function StepVars(flat: Flat): set<Var> {
    match flat
    case FlatBase(vars, _) => set v | v in vars
    case FlatLeft(right, _) => ItemVars(right)
  }

  predicate FlatApart(flat: seq<Flat>, bound: set<Var>) {
    flat == [] || (StepVars(flat[0]) !! bound && FlatApart(flat[1..], bound + StepVars(flat[0])))
  }

  lemma {:induction false} BaseFacts(vars: seq<Var>, rows: seq<Row>, e: Env, e': Env)
    requires e' in BaseRows(vars, rows, e)
    ensures Adds(e, e', set v | v in vars)
  {
    if e' == Bind(e, vars, rows[0]) { PlannerProof.BoundKeys(vars, rows[0]); } else { BaseFacts(vars, rows[1..], e,
        e'); }
  }

  lemma StepFacts(w: World, flat: Flat, e: Env, e': Env)
    requires w.Valid() && e' in FlatStep(w, flat, e)
    ensures Adds(e, e', StepVars(flat))
  {
    if flat.FlatBase? { BaseFacts(flat.vars, flat.rows, e, e'); }
  }

  lemma {:induction false} FlatFacts(w: World, flat: seq<Flat>, e: Env, e': Env)
    requires w.Valid() && FlatApart(flat, e.Keys) && e' in FlatRows(w, flat, e)
    ensures PlannerProof.Extends(e, e') && e'.Keys == e.Keys + FlatVars(flat)
    decreases |flat|, 0, 0
  {
    if flat != [] {
      var e1 := FlatFrom(w, flat, FlatStep(w, flat[0], e), e');
      StepFacts(w, flat[0], e, e1);
      FlatFacts(w, flat[1..], e1, e');
    }
  }

  lemma {:induction false} FlatFrom(w: World, flat: seq<Flat>, es: seq<Env>, e': Env) returns (e1: Env)
    requires flat != [] && e' in FlatAll(w, es, flat[1..])
    ensures e1 in es && e' in FlatRows(w, flat[1..], e1)
    decreases |es|
  {
    if e' in FlatRows(w, flat[1..], es[0]) { e1 := es[0]; } else { e1 := FlatFrom(w, flat, es[1..], e'); }
  }

  /** The columns of the tables are distinct, and a join condition refers to columns of its join. */
  predicate WellFormed(w: World, item: FromItem, bound: set<Var>) {
    match item
    case Base(vars, _) => (set v | v in vars) !! bound
    case InnerJoin(l, r, c) =>
      && CondOk(c) && ColumnsOf(w.columns, OnOf(c)) <= bound + ItemVars(l) + ItemVars(r)
      && WellFormed(w, l, bound) && WellFormed(w, r, bound + ItemVars(l))
    case LeftJoin(l, r, c) => CondOk(c) && WellFormed(w, l, bound) && ItemVars(r) !! bound + ItemVars(l)
  }

  lemma {:induction false} FlatAppend(a: seq<Flat>, b: seq<Flat>, bound: set<Var>)
    requires FlatApart(a, bound) && FlatApart(b, bound + FlatVars(a))
    ensures FlatApart(a + b, bound) && FlatVars(a + b) == FlatVars(a) + FlatVars(b)
    decreases |a|
  {
    if a == [] {
      assert a + b == b;
      assert bound + FlatVars(a) == bound;
    } else {
      assert (a + b)[1..] == a[1..] + b;
      assert bound + FlatVars(a) == bound + StepVars(a[0]) + FlatVars(a[1..]);
      FlatAppend(a[1..], b, bound + StepVars(a[0]));
    }
  }

  lemma {:induction false} FlattenFacts(w: World, item: FromItem, bound: set<Var>)
    requires ItemOk(item) && WellFormed(w, item, bound)
    ensures FlatApart(FlattenFrom(item), bound) && FlatVars(FlattenFrom(item)) == ItemVars(item)
  {
    match item {
      case Base(vars, rows) => OneFlat(FlatBase(vars, rows), bound);
      case InnerJoin(l, r, _) =>
        FlattenFacts(w, l, bound);
        FlattenFacts(w, r, bound + ItemVars(l));
        FlatAppend(FlattenFrom(l), FlattenFrom(r), bound);
      case LeftJoin(l, r, c) =>
        FlattenFacts(w, l, bound);
        OneFlat(FlatLeft(r, c), bound + ItemVars(l));
        FlatAppend(FlattenFrom(l), [FlatLeft(r, c)], bound);
    }
  }

  lemma OneFlat(flat: Flat, bound: set<Var>)
    requires StepVars(flat) !! bound
    ensures FlatApart([flat], bound) && FlatVars([flat]) == StepVars(flat)
  {
    assert [flat][1..] == [];
    assert FlatVars([]) == {};
  }

  lemma {:induction false} WhereColumns(w: World, item: FromItem, bound: set<Var>, c: Expr)
    requires ItemOk(item) && WellFormed(w, item, bound) && c in FromWhereClauses(item)
    ensures ColumnsOf(w.columns, c) <= bound + ItemVars(item)
  {
    match item {
      case Base(_, _) =>
      case InnerJoin(l, r, cond) =>
        if c in AndClauses(OnOf(cond)) { ConjunctColumns(w.columns, OnOf(cond), c); }
        else if c in FromWhereClauses(l) { WhereColumns(w, l, bound, c); }
        else { WhereColumns(w, r, bound + ItemVars(l), c); }
      case LeftJoin(l, _, _) => WhereColumns(w, l, bound, c);
    }
  }

  /** Clauses over what is bound may be checked before or after the inner loops. */
  lemma {:induction false} FilterOutwards(w: World, cs: seq<Expr>, es: seq<Env>, flat: seq<Flat>, bound: set<Var>)
    requires w.Valid() && FlatApart(flat, bound)
    requires forall e | e in es :: e.Keys == bound
    requires forall c | c in cs :: ColumnsOf(w.columns, c) <= bound
    ensures FlatAll(w, Filtered(w, cs, es), flat) == Filtered(w, cs, FlatAll(w, es, flat))
    decreases |es|
  {
    hide FlatRows, Keeps;
    if es != [] {
      assert es[0] in es;
      FilterOutwards(w, cs, es[1..], flat, bound);
      FilteredAppend(w, cs, FlatRows(w, flat, es[0]), FlatAll(w, es[1..], flat));
      var inner := FlatRows(w, flat, es[0]);
      forall e' | e' in inner ensures Keeps(w.atoms, cs, e') <==> Keeps(w.atoms, cs, es[0]) {
        FlatFacts(w, flat, es[0], e');
        KeepsStays(w, cs, es[0], e');
      }
      AllOrNothing(w, cs, inner, Keeps(w.atoms, cs, es[0]));
      FlatAllAppend(w, [es[0]], Filtered(w, cs, es[1..]), flat);
      OneBinding(w, es[0], flat);
      if !Keeps(w.atoms, cs, es[0]) { assert [] + Filtered(w, cs, es[1..]) == Filtered(w, cs, es[1..]); }
    }
  }

  lemma {:induction false} AllOrNothing(w: World, cs: seq<Expr>, es: seq<Env>, keep: bool)
    requires forall e | e in es :: Keeps(w.atoms, cs, e) <==> keep
    ensures Filtered(w, cs, es) == if keep then es else []
    decreases |es|
  {
    hide Keeps;
    if es != [] {
      assert es[0] in es;
      AllOrNothing(w, cs, es[1..], keep);
    }
  }

  // ---------- the tree and the flat list have the same rows ----------

  lemma {:induction false} ProductIsFlat(w: World, es: seq<Env>, r: FromItem, bound: set<Var>)
    requires w.Valid() && ItemOk(r) && WellFormed(w, r, bound) && forall e | e in es :: e.Keys == bound
    ensures Product(w, es, r) == Filtered(w, FromWhereClauses(r), FlatAll(w, es, FlattenFrom(r)))
    decreases r, 2, |es|
  {
    hide FlatRows, Keeps, TreeRows;
    if es != [] {
      assert es[0] in es;
      JoinTreeIsFlat(w, r, es[0]);
      ProductIsFlat(w, es[1..], r, bound);
      FilteredAppend(w, FromWhereClauses(r), FlatRows(w, FlattenFrom(r), es[0]), FlatAll(w, es[1..], FlattenFrom(r)));
    }
  }

  lemma {:induction false} LeftIsFlat(w: World, es: seq<Env>, r: FromItem, c: Cond)
    ensures LeftAll(w, es, r, c) == FlatAll(w, es, [FlatLeft(r, c)])
    decreases |es|
  {
    if es != [] {
      LeftIsFlat(w, es[1..], r, c);
      assert [FlatLeft(r, c)][1..] == [];
      EndOfLoops(w, w.leftRows(r, c, es[0]));
    }
  }

  lemma {:induction false} EndOfLoops(w: World, es: seq<Env>)
    ensures FlatAll(w, es, []) == es
    decreases |es|
  {
    if es != [] { EndOfLoops(w, es[1..]); }
  }

  lemma FilteredMembers(w: World, cs: seq<Expr>, es: seq<Env>, e: Env)
    requires e in Filtered(w, cs, es)
    ensures e in es
  {
    hide Keeps;
    if !(Keeps(w.atoms, cs, es[0]) && e == es[0]) { FilteredMembers(w, cs, es[1..], e); }
  }

  /** Main result for join trees: the flat list filtered by the collected clauses has exactly the rows of
      the tree, in the same order. */
  lemma {:induction false} JoinTreeIsFlat(w: World, item: FromItem, e: Env)
    requires w.Valid() && ItemOk(item) && WellFormed(w, item, e.Keys)
    ensures TreeRows(w, item, e) == Filtered(w, FromWhereClauses(item), FlatRows(w, FlattenFrom(item), e))
    decreases item, 1, 0
  {
    match item {
      case Base(vars, rows) =>
        var es := BaseRows(vars, rows, e);
        assert [FlatBase(vars, rows)][1..] == [];
        EndOfLoops(w, es);
        AllOrNothing(w, [], es, true);
      case InnerJoin(l, r, c) => InnerIsFlat(w, item, e);
      case LeftJoin(l, r, c) =>
        hide FlatRows, Keeps;
        JoinTreeIsFlat(w, l, e);
        OuterLoops(w, l, e);
        OneFlat(FlatLeft(r, c), e.Keys + ItemVars(l));
        forall d | d in FromWhereClauses(l) ensures ColumnsOf(w.columns, d) <= e.Keys + ItemVars(l) { WhereColumns(w,
            l, e.Keys, d); }
        var outer := FlatRows(w, FlattenFrom(l), e);
        LeftIsFlat(w, Filtered(w, FromWhereClauses(l), outer), r, c);
        FilterOutwards(w, FromWhereClauses(l), outer, [FlatLeft(r, c)], e.Keys + ItemVars(l));
        FlatTwice(w, FlattenFrom(l), [FlatLeft(r, c)], e);
    }
  }

  lemma OuterLoops(w: World, l: FromItem, e: Env)
    requires w.Valid() && ItemOk(l) && WellFormed(w, l, e.Keys)
    ensures forall e' | e' in FlatRows(w, FlattenFrom(l), e) :: e'.Keys == e.Keys + ItemVars(l)
  {
    FlattenFacts(w, l, e.Keys);
    forall e' | e' in FlatRows(w, FlattenFrom(l), e) ensures e'.Keys == e.Keys + ItemVars(l) {
      FlatFacts(w, FlattenFrom(l), e, e');
    }
  }

  lemma {:induction false} InnerIsFlat(w: World, item: FromItem, e: Env)
    requires w.Valid() && ItemOk(item) && item.InnerJoin? && WellFormed(w, item, e.Keys)
    ensures TreeRows(w, item, e) == Filtered(w, FromWhereClauses(item), FlatRows(w, FlattenFrom(item), e))
    decreases item, 0, 0
  {
    hide FlatRows, Keeps, Filtered, FlatAll;
    var l, r, on := item.left, item.right, OnOf(item.cond);
    var bound := e.Keys + ItemVars(l);
    var wl, wr := FromWhereClauses(l), FromWhereClauses(r);
    var outer := FlatRows(w, FlattenFrom(l), e);
    var all := FlatAll(w, outer, FlattenFrom(r));
    AcceptedIsFiltered(w, item.cond, Product(w, TreeRows(w, l, e), r));
    JoinTreeIsFlat(w, l, e);
    OuterLoops(w, l, e);
    forall d | d in wl ensures ColumnsOf(w.columns, d) <= bound { WhereColumns(w, l, e.Keys, d); }
    forall x | x in Filtered(w, wl, outer) ensures x.Keys == bound { FilteredMembers(w, wl, outer, x); }
    ProductIsFlat(w, Filtered(w, wl, outer), r, bound);
    FlattenFacts(w, r, bound);
    FilterOutwards(w, wl, outer, FlattenFrom(r), bound);
    FlatTwice(w, FlattenFrom(l), FlattenFrom(r), e);
    FilteredTwice(w, wr, wl, all);
    FilteredTwice(w, [on], wr + wl, all);
    SameClauses(w, on, wl, wr, all);
  }

  lemma SameClauses(w: World, on: Expr, wl: seq<Expr>, wr: seq<Expr>, all: seq<Env>)
    ensures Filtered(w, [on] + (wr + wl), all) == Filtered(w, AndClauses(on) + (wl + wr), all)
  {
    forall x | x in all
      ensures Keeps(w.atoms, [on] + (wr + wl), x) <==> Keeps(w.atoms, AndClauses(on) + (wl + wr), x)
    {
      ConjunctsKeepSameRows(w.atoms, on, x);
      assert on in [on] + (wr + wl);
      assert forall c :: c in [on] + (wr + wl) <==> c == on || c in wl || c in wr;
      assert forall c :: c in AndClauses(on) + (wl + wr) <==> c in AndClauses(on) || c in wl || c in wr;
    }
    FilteredSame(w, [on] + (wr + wl), AndClauses(on) + (wl + wr), all);
  }

  // ---------- a FROM list ----------

  function FlattenList(items: seq<FromItem>): seq<Flat> {
    if items == [] then [] else FlattenFrom(items[0]) + FlattenList(items[1..])
  }

  predicate ListOk(items: seq<FromItem>) {
    forall item | item in items :: ItemOk(item)
  }

  function ListWhereClauses(items: seq<FromItem>): seq<Expr>
    requires ListOk(items)
  {
    if items == [] then [] else
    assert items[0] in items && forall item | item in items[1..] :: item in items;
    FromWhereClauses(items[0]) + ListWhereClauses(items[1..])
  }

  predicate ListWellFormed(w: World, items: seq<FromItem>, bound: set<Var>) {
    items == [] || (WellFormed(w, items[0], bound) && ListWellFormed(w, items[1..], bound + ItemVars(items[0])))
  }

  /** The comma-separated elements, nested from left to right. */
  function ListRows(w: World, items: seq<FromItem>, e: Env): seq<Env>
    requires ListOk(items)
    decreases |items|, 0, 0
  {
    if items == [] then [e] else
    assert items[0] in items && forall item | item in items[1..] :: item in items;
    ListAll(w, TreeRows(w, items[0], e), items[1..])
  }

  function ListAll(w: World, es: seq<Env>, items: seq<FromItem>): seq<Env>
    requires ListOk(items)
    decreases |items|, 1, |es|
  {
    if es == [] then [] else ListRows(w, items, es[0]) + ListAll(w, es[1..], items)
  }

  lemma ListTail(w: World, items: seq<FromItem>, bound: set<Var>)
    requires items != [] && ListOk(items) && ListWellFormed(w, items, bound)
    ensures ItemOk(items[0]) && WellFormed(w, items[0], bound)
    ensures ListOk(items[1..]) && ListWellFormed(w, items[1..], bound + ItemVars(items[0]))
    ensures ListWhereClauses(items) == FromWhereClauses(items[0]) + ListWhereClauses(items[1..])
  {
    assert items[0] in items && forall item | item in items[1..] :: item in items;
  }

  lemma {:induction false} FlattenListFacts(w: World, items: seq<FromItem>, bound: set<Var>)
    requires ListOk(items) && ListWellFormed(w, items, bound)
    ensures FlatApart(FlattenList(items), bound)
  {
    hide FlattenFrom;
    if items != [] {
      ListTail(w, items, bound);
      FlattenFacts(w, items[0], bound);
      FlattenListFacts(w, items[1..], bound + ItemVars(items[0]));
      FlatAppend(FlattenFrom(items[0]), FlattenList(items[1..]), bound);
    }
  }

  lemma {:induction false} ListAllIsFlat(w: World, es: seq<Env>, items: seq<FromItem>, bound: set<Var>)
    requires w.Valid() && ListOk(items) && ListWellFormed(w, items, bound) && forall e | e in es :: e.Keys == bound
    ensures ListAll(w, es, items) == Filtered(w, ListWhereClauses(items), FlatAll(w, es, FlattenList(items)))
    decreases |items|, 1, |es|
  {
    hide FlatRows, Keeps, ListRows, ListOk, ListWellFormed, ListWhereClauses;
    if es != [] {
      assert es[0] in es;
      ListIsFlat(w, items, es[0]);
      ListAllIsFlat(w, es[1..], items, bound);
      FilteredAppend(w, ListWhereClauses(items), FlatRows(w, FlattenList(items), es[0]), FlatAll(w, es[1..],
          FlattenList(items)));
    }
  }

  /** Main result for a whole FROM: the flat list filtered by the clauses of all its joins has exactly the
      rows of the list of join trees, in the same order. */
  lemma {:induction false} ListIsFlat(w: World, items: seq<FromItem>, e: Env)
    requires w.Valid() && ListOk(items) && ListWellFormed(w, items, e.Keys)
    ensures ListRows(w, items, e) == Filtered(w, ListWhereClauses(items), FlatRows(w, FlattenList(items), e))
    decreases |items|, 0, 0
  {
    if items == [] {
      assert Keeps(w.atoms, [], e);
      OneFiltered(w, [], e);
    } else {
      hide FlatRows, Keeps, Filtered, FlatAll, ListOk, ListWellFormed, ListWhereClauses, TreeRows, FlattenFrom,
          FromWhereClauses;
      var item, rest := items[0], items[1..];
      ListTail(w, items, e.Keys);
      var bound := e.Keys + ItemVars(item);
      var wl, wr := FromWhereClauses(item), ListWhereClauses(rest);
      var outer := FlatRows(w, FlattenFrom(item), e);
      JoinTreeIsFlat(w, item, e);
      OuterLoops(w, item, e);
      forall d | d in wl ensures ColumnsOf(w.columns, d) <= bound { WhereColumns(w, item, e.Keys, d); }
      forall x | x in Filtered(w, wl, outer) ensures x.Keys == bound { FilteredMembers(w, wl, outer, x); }
      ListAllIsFlat(w, Filtered(w, wl, outer), rest, bound);
      FlattenListFacts(w, rest, bound);
      FilterOutwards(w, wl, outer, FlattenList(rest), bound);
      FlatTwice(w, FlattenFrom(item), FlattenList(rest), e);
      var all := FlatAll(w, outer, FlattenList(rest));
      FilteredTwice(w, wr, wl, all);
      EitherOrder(w, wl, wr, all);
    }
  }

  lemma EitherOrder(w: World, a: seq<Expr>, b: seq<Expr>, es: seq<Env>)
    ensures Filtered(w, a + b, es) == Filtered(w, b + a, es)
  {
    forall x | x in es ensures Keeps(w.atoms, a + b, x) <==> Keeps(w.atoms, b + a, x) {
      assert forall c :: c in a + b <==> c in b + a;
    }
    FilteredSame(w, a + b, b + a, es);
  }

  /** A whole FROM and WHERE: the clauses of the joins and of WHERE over the flat list. */
  lemma QueryIsFlat(w: World, items: seq<FromItem>, condition: Expr)
    requires w.Valid() && ListOk(items) && ListWellFormed(w, items, {})
    ensures Filtered(w, [condition], ListRows(w, items, map[]))
            == Filtered(w, ListWhereClauses(items) + AndClauses(condition), FlatRows(w, FlattenList(items), map[]))
  {
    hide Filtered, ListRows, FlatRows, ListOk, ListWellFormed, ListWhereClauses;
    var e: Env := map[];
    assert e.Keys == {};
    var all := FlatRows(w, FlattenList(items), e);
    var clauses := ListWhereClauses(items);
    ListIsFlat(w, items, e);
    FilteredTwice(w, [condition], clauses, all);
    SameClauses(w, condition, clauses, [], all);
    assert clauses + [] == clauses && [] + clauses == clauses;
    EitherOrder(w, AndClauses(condition), clauses, all);
  }
}
