/** The loops that the planned program consists of: nested scans that push result rows, and hash
    indexes that are built on first use, probed by later index builds and kept in a table. */
module PlanExecutor {
  import opened VarGroups
  import opened Planner
  import opened PlannerProof
  import opened PlannerCorrect

  datatype Entry = Entry(key: Row, rows: seq<Row>)

  /** A hash table whose test is equality without nulls: a key with a null in it is never found again. */
  type HashTable = seq<Entry>

  function Lookup(table: HashTable, key: Row): seq<Row> {
    if table == [] then []
    else if KeysMatch(table[0].key, key) then table[0].rows
    else Lookup(table[1..], key)
  }

  /** (push row (gethash key table)) */
  function PushRow(table: HashTable, key: Row, row: Row): HashTable {
    if table == [] then [Entry(key, [row])]
    else if KeysMatch(table[0].key, key) then [Entry(table[0].key, [row] + table[0].rows)] + table[1..]
    else [table[0]] + PushRow(table[1..], key, row)
  }

  function Reverse<T>(xs: seq<T>): seq<T> {
    if xs == [] then [] else Reverse(xs[1..]) + [xs[0]]
  }

  function Reversed(table: HashTable): HashTable {
    if table == [] then [] else [Entry(table[0].key, Reverse(table[0].rows))] + Reversed(table[1..])
  }

  function AllRows(table: HashTable): seq<Row> {
    if table == [] then [] else table[0].rows + AllRows(table[1..])
  }

  lemma MatchTransitive(a: Row, b: Row, c: Row)
    requires KeysMatch(a, b)
    ensures KeysMatch(b, c) <==> KeysMatch(a, c)
  {
    if |c| == |a| {
      assert forall i | 0 <= i < |a| :: SqlEq(a[i], b[i]);
      assert forall i | 0 <= i < |a| :: SqlEq(b[i], c[i]) <==> SqlEq(a[i], c[i]);
    }
  }

  lemma {:induction false} LookupPush(table: HashTable, key: Row, row: Row, k: Row)
    ensures Lookup(PushRow(table, key, row), k) == (if KeysMatch(key, k) then [row] else []) + Lookup(table, k)
  {
    if table != [] {
      if KeysMatch(table[0].key, key) {
        MatchTransitive(table[0].key, key, k);
      } else {
        LookupPush(table[1..], key, row, k);
        if KeysMatch(table[0].key, k) && KeysMatch(key, k) { MatchFromBoth(table[0].key, key, k); }
      }
    }
  }

  lemma MatchFromBoth(a: Row, b: Row, c: Row)
    requires KeysMatch(a, c) && KeysMatch(b, c)
    ensures KeysMatch(a, b)
  {
    forall i | 0 <= i < |a| ensures SqlEq(a[i], b[i]) { assert SqlEq(a[i], c[i]) && SqlEq(b[i], c[i]); }
  }

  lemma {:induction false} AllRowsPush(table: HashTable, key: Row, row: Row)
    ensures forall r :: r in AllRows(PushRow(table, key, row)) <==> r == row || r in AllRows(table)
  {
    if table != [] && !KeysMatch(table[0].key, key) { AllRowsPush(table[1..], key, row); }
  }

  lemma {:induction false} LookupReversed(table: HashTable, k: Row)
    ensures Lookup(Reversed(table), k) == Reverse(Lookup(table, k))
  {
    if table != [] { LookupReversed(table[1..], k); }
  }

  lemma {:induction false} AllRowsReversed(table: HashTable)
    ensures forall r :: r in AllRows(Reversed(table)) <==> r in AllRows(table)
  {
    if table != [] {
      AllRowsReversed(table[1..]);
      ReverseMembers(table[0].rows);
    }
  }

  lemma {:induction false} ReverseMembers<T(!new)>(xs: seq<T>)
    ensures forall x :: x in Reverse(xs) <==> x in xs
  {
    if xs != [] { ReverseMembers(xs[1..]); }
  }

  /** The hash table holds the rows of the index, each under its key, in scan order. */
  ghost predicate Represents(I: Interp, table: HashTable, ix: Index) {
    && (forall k :: Lookup(table, k) == Matches(I, ix, IndexRows(I, ix), k))
    && forall r :: r in AllRows(table) <==> r in IndexRows(I, ix)
  }

  /** The same while the index is built from these rows, newest row first. */
  ghost predicate Building(I: Interp, table: HashTable, ix: Index, rows: seq<Row>) {
    && (forall k :: Reverse(Lookup(table, k)) == Matches(I, ix, Built(I, ix, rows), k))
    && forall r :: r in AllRows(table) <==> r in Built(I, ix, rows)
  }

  lemma {:induction false} BuiltAppend(I: Interp, ix: Index, a: seq<Row>, b: seq<Row>)
    ensures Built(I, ix, a + b) == Built(I, ix, a) + Built(I, ix, b)
    decreases |a|
  {
    hide Keeps, Columns;
    if a == [] {
      assert a + b == b;
    } else {
      assert (a + b)[1..] == a[1..] + b;
      BuiltAppend(I, ix, a[1..], b);
    }
  }

  lemma BuildStep(I: Interp, table: HashTable, ix: Index, rows: seq<Row>, row: Row)
    requires Building(I, table, ix, rows)
    ensures var stored := Columns(I, ix.table, row, ix.table.vars);
            var key := Columns(I, ix.table, row, ix.outVars);
            Building(I, if Keeps(I, ix, row) then PushRow(table, key, stored) else table, ix, rows + [row])
  {
    hide Keeps, Columns, KeysMatch, PushRow, Lookup, AllRows, Matches;
    var stored := Columns(I, ix.table, row, ix.table.vars);
    var key := Columns(I, ix.table, row, ix.outVars);
    BuiltAppend(I, ix, rows, [row]);
    BuiltOne(I, ix, row);
    if Keeps(I, ix, row) {
      AllRowsPush(table, key, stored);
      forall k ensures Reverse(Lookup(PushRow(table, key, stored), k)) == Matches(I, ix, Built(I, ix, rows + [row]),
          k) {
        LookupPush(table, key, stored, k);
        MatchesAppend(I, ix, Built(I, ix, rows), [stored], k);
        MatchesStored(I, ix, row, k);
        ReversePush(stored, Lookup(table, k));
      }
    } else {
      assert Built(I, ix, rows) + [] == Built(I, ix, rows);
    }
  }

  lemma BuiltOne(I: Interp, ix: Index, row: Row)
    ensures Built(I, ix, [row]) == if Keeps(I, ix, row) then [Columns(I, ix.table, row, ix.table.vars)] else []
  {
    hide Keeps, Columns;
    assert [row][1..] == [];
  }

  lemma ReversePush<T>(x: T, xs: seq<T>)
    ensures Reverse([x] + xs) == Reverse(xs) + [x] && Reverse([] + xs) == Reverse(xs)
  {
    assert ([x] + xs)[1..] == xs;
    assert [] + xs == xs;
  }

  /** The key computed during the scan is the key of the stored row. */
  lemma MatchesStored(I: Interp, ix: Index, row: Row, k: Row)
    ensures var stored := Columns(I, ix.table, row, ix.table.vars);
            Matches(I, ix, [stored], k) == if KeysMatch(Columns(I, ix.table, row, ix.outVars), k) then [stored] else []
  {
    StoredRow(I, ix.table, row);
    var stored := Columns(I, ix.table, row, ix.table.vars);
    assert [stored][1..] == [];
  }

  lemma {:induction false} MatchesAny(I: Interp, ix: Index, rows: seq<Row>, k: Row)
    ensures Matches(I, ix, rows, k) != [] <==> exists row | row in rows :: KeysMatch(Columns(I, ix.table, row,
        ix.outVars), k)
  {
    hide KeysMatch, Columns;
    if rows != [] {
      MatchesAny(I, ix, rows[1..], k);
      assert forall row :: row in rows <==> row == rows[0] || row in rows[1..];
    }
  }

  /** A table with some entry under exactly the keys that pass the probe. */
  ghost predicate Serves(I: Interp, table: HashTable, p: Probe) {
    forall e :: Lookup(table, Read(I, e, p.outVars)) != [] <==> Passes(I, p, e)
  }

  ghost predicate AllServe(I: Interp, tables: seq<HashTable>, ps: seq<Probe>) {
    |tables| == |ps| && forall i | 0 <= i < |ps| :: Serves(I, tables[i], ps[i])
  }

  lemma ReuseServes(I: Interp, table: HashTable, p: Probe)
    requires p.Reuse? && Represents(I, table, p.source)
    ensures Serves(I, table, p)
  {
    hide KeysMatch, Columns, Matches, Lookup, IndexRows;
    forall e ensures Lookup(table, Read(I, e, p.outVars)) != [] <==> Passes(I, p, e) {
      MatchesAny(I, p.source, IndexRows(I, p.source), Read(I, e, p.outVars));
    }
  }

  function SourceOf(p: Probe): Index { p.source }

  /** Every index this plan builds reads only indexes that are built before it. */
  ghost predicate Ready(plan: Plan, before: set<Index>)
    decreases plan
  {
    match plan
    case Scan(_, _, rest) => Ready(rest, before)
    case Join(ix, _, _, rest) => (forall p | p in ix.probes :: SourceOf(p) in before) && Ready(rest, before + {ix})
    case Filter(_) => true
  }

  /** The indexes of a plan by their keys. */
  function IndexesOf(plan: Plan): map<nat, Index> {
    match plan
    case Scan(_, _, rest) => IndexesOf(rest)
    case Join(ix, _, _, rest) => IndexesOf(rest)[ix.key := ix]
    case Filter(_) => map[]
  }

  ghost predicate Named(plan: Plan, known: map<nat, Index>) {
    match plan
    case Scan(_, _, rest) => Named(rest, known)
    case Join(ix, _, _, rest) => ix.key in known && known[ix.key] == ix && Named(rest, known)
    case Filter(_) => true
  }

  lemma {:induction false} NamedMore(plan: Plan, known: map<nat, Index>, ix: Index)
    requires Named(plan, known) && ix.key !in known
    ensures Named(plan, known[ix.key := ix])
  {
    match plan {
      case Scan(_, _, rest) => NamedMore(rest, known, ix);
      case Join(_, _, _, rest) => NamedMore(rest, known, ix);
      case Filter(_) =>
    }
  }

  /** In a planned program every index has its own key and finds its sources built. */
  lemma {:induction false} PlanReady(tables: seq<Table>, cs: seq<Clause>, vars: set<Var>, groups: seq<seq<Var>>,
      sources: seq<Index>)
    ensures var plan := PlanFrom(tables, cs, vars, groups, sources);
            && Ready(plan, set s | s in sources)
            && Named(plan, IndexesOf(plan))
            && forall k | k in IndexesOf(plan) :: k < |tables|
    decreases |tables|
  {
    hide Select, InVars, OutVars, ProbesOf, Pick;
    if tables != [] {
      var i := Pick(tables, cs, vars);
      var t, rest := tables[i], Without(tables, i);
      var newVars := VarsOf(t);
      var equi := Select(cs, newVars, newVars + vars, ToJoin);
      var left := Select(cs, newVars, newVars + vars, Left);
      if exists c | c in cs :: Participant(c, newVars) {
        var inVars, outVars := InVars(equi, newVars), OutVars(equi, newVars);
        var ix := Index(|rest|, t, Select(cs, newVars, newVars + vars, ToScan), ProbesOf(sources, inVars, outVars,
            groups), outVars);
        forall p | p in ix.probes ensures SourceOf(p) in (set s | s in sources) {
          ProbeSource(sources, inVars, outVars, groups, p);
        }
        PlanReady(rest, left, newVars + vars, groups, sources + [ix]);
        assert (set s | s in sources + [ix]) == (set s | s in sources) + {ix};
        var plan := PlanFrom(rest, left, newVars + vars, groups, sources + [ix]);
        NamedMore(plan, IndexesOf(plan), ix);
      } else {
        PlanReady(rest, left, newVars + vars, groups, sources);
      }
    }
  }

  lemma {:induction false} ProbeSource(sources: seq<Index>, inVars: seq<Var>, outVars: seq<Var>,
      groups: seq<seq<Var>>, p: Probe)
    requires p in ProbesOf(sources, inVars, outVars, groups)
    ensures SourceOf(p) in sources
  {
    if p !in ProbeOf(sources[0], inVars, outVars, groups) {
      ProbeSource(sources[1..], inVars, outVars, groups, p);
    }
  }

  /** The table of join-variable values so far: an entry for exactly the keys of these rows. */
  ghost predicate KeysOf(I: Interp, table: HashTable, t: Table, inVars: seq<Var>, rows: seq<Row>) {
    forall k :: Lookup(table, k) != [] <==> exists row | row in rows :: KeysMatch(Columns(I, t, row, inVars), k)
  }

  lemma KeysStep(I: Interp, table: HashTable, t: Table, inVars: seq<Var>, rows: seq<Row>, row: Row)
    requires KeysOf(I, table, t, inVars, rows)
    ensures KeysOf(I, PushRow(table, Columns(I, t, row, inVars), row), t, inVars, rows + [row])
  {
    hide Lookup, PushRow, KeysMatch, Columns;
    var key := Columns(I, t, row, inVars);
    forall k ensures Lookup(PushRow(table, key, row), k) != [] <==>
                     exists r | r in rows + [row] :: KeysMatch(Columns(I, t, r, inVars), k) {
      LookupPush(table, key, row, k);
      if KeysMatch(key, k) { assert row in rows + [row]; }
      if r :| r in rows && KeysMatch(Columns(I, t, r, inVars), k) { assert r in rows + [row]; }
    }
  }

  lemma KeysServe(I: Interp, table: HashTable, p: Probe, rows: seq<Row>)
    requires p.Keys? && KeysOf(I, table, p.source.table, p.inVars, rows)
    requires forall r :: r in rows <==> r in IndexRows(I, p.source)
    ensures Serves(I, table, p)
  {
    hide Lookup, KeysMatch, Columns, IndexRows;
    forall e ensures Lookup(table, Read(I, e, p.outVars)) != [] <==> Passes(I, p, e) {
      var k := Read(I, e, p.outVars);
      assert Lookup(table, k) != [] <==> exists row | row in rows :: KeysMatch(Columns(I, p.source.table, row,
          p.inVars), k);
    }
  }

  lemma KeepsMeans(I: Interp, ix: Index, row: Row)
    ensures Keeps(I, ix, row) <==>
              AllHold(I, ix.scan, Bound(ix.table.vars, row)) && forall p | p in ix.probes :: Passes(I, p,
                  Bound(ix.table.vars, row))
  {
  }

  lemma StartBuilding(I: Interp, ix: Index)
    ensures Building(I, [], ix, ix.table.rows[..0])
  {
    assert ix.table.rows[..0] == [];
  }

  lemma FinishBuilding(I: Interp, table: HashTable, ix: Index)
    requires Building(I, table, ix, ix.table.rows)
    ensures Represents(I, Reversed(table), ix)
  {
    hide Lookup, Matches, Built, AllRows, Reversed;
    forall k ensures Lookup(Reversed(table), k) == Matches(I, ix, IndexRows(I, ix), k) {
      LookupReversed(table, k);
    }
    AllRowsReversed(table);
  }

  class Executor {
    const I: Interp
    ghost const known: map<nat, Index>
    var acc: seq<Env>
    var index: map<nat, HashTable>

    constructor (I: Interp, ghost plan: Plan)
      ensures Valid() && this.I == I && known == IndexesOf(plan) && acc == [] && index == map[]
    {
      this.I, known := I, IndexesOf(plan);
      acc, index := [], map[];
    }

    /** The cached tables are those of the plan's indexes. */
    ghost predicate Valid()
      reads this
    {
      forall k | k in index :: k in known && Represents(I, index[k], known[k])
    }

    ghost predicate Has(ix: Index)
      reads this
    {
      ix.key in index && ix.key in known && known[ix.key] == ix
    }

    ghost predicate HasAll(ixs: set<Index>)
      reads this
    {
      forall ix | ix in ixs :: Has(ix)
    }

    /** The keys of the join variables in the rows of an earlier index. */
    method SipTable(p: Probe) returns (table: HashTable)
      requires Valid() && Has(SourceOf(p))
      ensures Serves(I, table, p)
    {
      hide Represents, Lookup, PushRow, Columns;
      var source := index[SourceOf(p).key];
      assert Represents(I, source, SourceOf(p));
      match p
      case Reuse(_, _) =>
        table := source;
        ReuseServes(I, table, p);
      case Keys(s, inVars, outVars) =>
        var rows := AllRows(source);
        table := [];
        NoKeys(I, s.table, inVars, rows);
        for i := 0 to |rows|
          invariant KeysOf(I, table, s.table, inVars, rows[..i])
        {
          KeysStep(I, table, s.table, inVars, rows[..i], rows[i]);
          assert rows[..i + 1] == rows[..i] + [rows[i]];
          table := PushRow(table, Columns(I, s.table, rows[i], inVars), rows[i]);
        }
        assert rows[..|rows|] == rows;
        SameRows(I, source, s);
        KeysServe(I, table, p, rows);
    }

    /** The lambda that builds an index. */
    method BuildIndex(ix: Index) returns (table: HashTable)
      requires Valid() && forall p | p in ix.probes :: Has(SourceOf(p))
      ensures Represents(I, table, ix)
    {
      var sips: seq<HashTable> := [];
      for i := 0 to |ix.probes|
        invariant AllServe(I, sips, ix.probes[..i])
      {
        assert ix.probes[i] in ix.probes;
        var sip := SipTable(ix.probes[i]);
        sips := sips + [sip];
      }
      assert ix.probes[..|ix.probes|] == ix.probes;
      table := ScanInto(ix, sips);
      table := Reversed(table);
    }

    /** The scan with its pushes, and the final reversal of the rows. */
    method ScanInto(ix: Index, sips: seq<HashTable>) returns (table: HashTable)
      requires AllServe(I, sips, ix.probes)
      ensures Represents(I, Reversed(table), ix)
    {
      hide AllServe, Keeps, AllHold;
      table := [];
      var rows := ix.table.rows;
      StartBuilding(I, ix);
      for i := 0 to |rows|
        invariant Building(I, table, ix, rows[..i])
      {
        var e := Bound(ix.table.vars, rows[i]);
        var passes := SipsPass(ix, sips, e);
        BuildStep(I, table, ix, rows[..i], rows[i]);
        assert rows[..i + 1] == rows[..i] + [rows[i]];
        assert Keeps(I, ix, rows[i]) <==> AllHold(I, ix.scan, e) && passes by { KeepsMeans(I, ix, rows[i]); }
        if AllHold(I, ix.scan, e) && passes {
          table := PushRow(table, Read(I, e, ix.outVars), Read(I, e, ix.table.vars));
          assert Read(I, e, ix.outVars) == Columns(I, ix.table, rows[i], ix.outVars) ;
          assert Read(I, e, ix.table.vars) == Columns(I, ix.table, rows[i], ix.table.vars) ;
        }
      }
      assert rows[..|rows|] == rows;
      FinishBuilding(I, table, ix);
    }

    method SipsPass(ix: Index, sips: seq<HashTable>, e: Env) returns (passes: bool)
      requires AllServe(I, sips, ix.probes)
      ensures passes <==> forall p | p in ix.probes :: Passes(I, p, e)
    {
      hide Passes, Lookup;
      var i := 0;
      while i < |sips|
        invariant 0 <= i <= |sips| && forall j | 0 <= j < i :: Passes(I, ix.probes[j], e)
      {
        assert Serves(I, sips[i], ix.probes[i]);
        if Lookup(sips[i], Read(I, e, ix.probes[i].outVars)) == [] {
          assert ix.probes[i] in ix.probes && !Passes(I, ix.probes[i], e);
          return false;
        }
        i := i + 1;
      }
      passes := true;
    }

    /** compute-index-if-absent */
    method IndexFor(ix: Index) returns (table: HashTable)
      requires Valid() && ix.key in known && known[ix.key] == ix
      requires forall p | p in ix.probes :: Has(SourceOf(p))
      modifies this`index
      ensures Valid() && Has(ix) && old(index).Keys <= index.Keys
      ensures Represents(I, table, ix)
    {
      if ix.key in index {
        table := index[ix.key];
      } else {
        table := BuildIndex(ix);
        index := index[ix.key := table];
      }
    }

    /** Main result: running the program pushes exactly what its meaning says, however often the cached
        indexes are used. */
    method Run(plan: Plan, e: Env, ghost before: set<Index>)
      requires Valid() && HasAll(before) && Ready(plan, before) && Named(plan, known)
      modifies this
      ensures acc == old(acc) + Eval(I, plan, e)
      ensures Valid() && old(index).Keys <= index.Keys
      decreases plan, 1, 0
    {
      hide Represents;
      match plan
      case Filter(clauses) =>
        if AllHold(I, clauses, e) { acc := acc + [e]; }
      case Scan(table, filters, rest) =>
        RunRows(table.rows, table.vars, filters, rest, e, before);
      case Join(ix, inVars, filters, rest) =>
        var table := IndexFor(ix);
        var rows := Lookup(table, Read(I, e, inVars));
        assert rows == Matches(I, ix, IndexRows(I, ix), Read(I, e, inVars)) by { FoundRows(I, table, ix, Read(I, e,
            inVars)); }
        RunRows(rows, ix.table.vars, filters, rest, e, before + {ix});
    }

    /** dolist over rows, with the filters as a when around the nested program. */
    method RunRows(rows: seq<Row>, vars: seq<Var>, filters: seq<Clause>, rest: Plan, e: Env, ghost before: set<Index>)
      requires Valid() && HasAll(before) && Ready(rest, before) && Named(rest, known)
      modifies this
      ensures acc == old(acc) + EvalRows(I, rows, vars, filters, rest, e)
      ensures Valid() && old(index).Keys <= index.Keys
      decreases rest, 2, 0
    {
      hide Eval, EvalRows, AllHold, Represents, Ready, Named;
      NoRows(I, vars, filters, rest, e);
      for i := 0 to |rows|
        invariant Valid() && HasAll(before) && old(index).Keys <= index.Keys
        invariant acc == old(acc) + EvalRows(I, rows[..i], vars, filters, rest, e)
      {
        var e' := Bind(e, vars, rows[i]);
        assert rows[..i + 1] == rows[..i] + [rows[i]];
        EvalRowsAppend(I, rows[..i], [rows[i]], vars, filters, rest, e);
        EvalOneRow(I, rows[i], vars, filters, rest, e);
        if AllHold(I, filters, e') { Run(rest, e', before); }
      }
      assert rows[..|rows|] == rows;
    }
  }

  lemma FoundRows(I: Interp, table: HashTable, ix: Index, key: Row)
    requires Represents(I, table, ix)
    ensures Lookup(table, key) == Matches(I, ix, IndexRows(I, ix), key)
  {
  }

  lemma NoRows(I: Interp, vars: seq<Var>, filters: seq<Clause>, rest: Plan, e: Env)
    ensures EvalRows(I, [], vars, filters, rest, e) == []
  {
  }

  lemma EvalOneRow(I: Interp, row: Row, vars: seq<Var>, filters: seq<Clause>, rest: Plan, e: Env)
    ensures EvalRows(I, [row], vars, filters, rest, e)
            == if AllHold(I, filters, Bind(e, vars, row)) then Eval(I, rest, Bind(e, vars, row)) else []
  {
    hide Eval, AllHold;
    assert [row][1..] == [];
  }

  lemma NoKeys(I: Interp, t: Table, inVars: seq<Var>, rows: seq<Row>)
    ensures KeysOf(I, [], t, inVars, rows[..0])
  {
  }

  lemma SameRows(I: Interp, table: HashTable, ix: Index)
    requires Represents(I, table, ix)
    ensures forall r :: r in AllRows(table) <==> r in IndexRows(I, ix)
  {
  }

  /** From the tables and clauses of a query to its result rows. */
  method RunQuery(I: Interp, tables: seq<Table>, cs: seq<Clause>, size: Table -> nat) returns (rows: seq<Env>)
    requires Apart(tables, {}) && forall c | c in cs :: WellScoped(I, c, AllVars(tables))
    ensures multiset(rows) == Answers(I, tables, cs, map[])
  {
    hide PlanQuery, Eval, Answers, Ready, Named, InitialJoinOrder;
    var order := InitialJoinOrder(tables, cs, size);
    var plan := PlanQuery(order, cs);
    QueryReady(order, cs);
    var executor := new Executor(I, plan);
    executor.Run(plan, map[], {});
    InitialOrderCorrect(I, tables, cs, size);
    rows := executor.acc;
    assert rows == Eval(I, plan, map[]);
  }

  lemma QueryReady(order: seq<Table>, cs: seq<Clause>)
    ensures Ready(PlanQuery(order, cs), {}) && Named(PlanQuery(order, cs), IndexesOf(PlanQuery(order, cs)))
  {
    PlanReady(order, cs, {}, BuildVarGroups(Pairs(cs)), []);
    assert (set s: Index | s in []) == {};
  }
}
