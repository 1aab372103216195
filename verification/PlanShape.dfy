/** What the planner chooses, beyond the rows that a plan gives: which table comes next, how early each
    clause is tested, and which earlier indexes filter a table. */
module PlanShape {
  import opened VarGroups
  import opened Planner

  /** Some equality has all its variables in the table and in what is bound. */
  ghost predicate Joinable(t: Table, cs: seq<Clause>, vars: set<Var>) {
    exists c | c in cs && c.src.Equals? :: {c.src.lhs, c.src.rhs} <= VarsOf(t) + vars
  }

  lemma {:induction false} FirstJoinableIsFirst(tables: seq<Table>, cs: seq<Clause>, vars: set<Var>)
    ensures var i := FirstJoinable(tables, cs, vars);
            && (i < |tables| ==> Joinable(tables[i], cs, vars))
            && forall j | 0 <= j < i :: !Joinable(tables[j], cs, vars)
  {
    if tables != [] {
      if c :| c in cs && EquiJoin(c, VarsOf(tables[0]) + vars) {
        assert {c.src.lhs, c.src.rhs} <= VarsOf(tables[0]) + vars;
      } else {
        assert !Joinable(tables[0], cs, vars);
        FirstJoinableIsFirst(tables[1..], cs, vars);
      }
    }
  }

  /** The next table is the first that an equality joins to what is bound; a product with the first one is
      made only when there is none. */
  lemma PickJoins(tables: seq<Table>, cs: seq<Clause>, vars: set<Var>)
    requires tables != []
    ensures var i := Pick(tables, cs, vars);
            if exists j | 0 <= j < |tables| :: Joinable(tables[j], cs, vars) then
              Joinable(tables[i], cs, vars) && forall j | 0 <= j < i :: !Joinable(tables[j], cs, vars)
            else i == 0
  {
    FirstJoinableIsFirst(tables, cs, vars);
  }

  ghost predicate NotYet(cs: seq<Clause>, vars: set<Var>) {
    forall c | c in cs :: !(c.freeVars <= vars)
  }

  /** Nothing in the plan is tested later than it could be. */
  ghost predicate Early(plan: Plan, vars: set<Var>) {
    match plan
    case Scan(t, filters, rest) => NotYet(filters, vars) && Early(rest, vars + VarsOf(t))
    case Join(ix, _, filters, rest) => NotYet(ix.scan + filters, vars) && Early(rest, vars + VarsOf(ix.table))
    case Filter(cs) => NotYet(cs, vars)
  }

  function LastFilter(plan: Plan): seq<Clause> {
    match plan
    case Scan(_, _, rest) => LastFilter(rest)
    case Join(_, _, _, rest) => LastFilter(rest)
    case Filter(cs) => cs
  }

  function AllVars(tables: seq<Table>): set<Var> {
    set t, v | t in tables && v in t.vars :: v
  }

  /** What is left for later is not yet decided, and lacks nothing that the other tables do not have. */
  lemma LeftForLater(tables: seq<Table>, i: nat, cs: seq<Clause>, vars: set<Var>)
    requires i < |tables|
    ensures var newVars := VarsOf(tables[i]);
            var left := Select(cs, newVars, newVars + vars, Left);
            && NotYet(left, newVars + vars)
            && ((forall c | c in cs :: c.freeVars <= vars + AllVars(tables)) ==>
                  forall c | c in left :: c.freeVars <= newVars + vars + AllVars(Without(tables, i)))
  {
    var t, rest := tables[i], Without(tables, i);
    assert forall u | u in tables :: u == t || u in rest;
    assert AllVars(tables) <= VarsOf(t) + AllVars(rest);
  }

  /** Every clause is settled with the table that binds its last variable, so nothing is left for the end
      when the tables have all its variables. */
  lemma {:induction false} EachClauseEarly(tables: seq<Table>, cs: seq<Clause>, vars: set<Var>,
      groups: seq<seq<Var>>, sources: seq<Index>)
    requires NotYet(cs, vars)
    ensures Early(PlanFrom(tables, cs, vars, groups, sources), vars)
    ensures (forall c | c in cs :: c.freeVars <= vars + AllVars(tables)) ==>
              LastFilter(PlanFrom(tables, cs, vars, groups, sources)) == []
    decreases |tables|
  {
    hide Pick, ProbesOf, InVars, OutVars, VarsOf, Classify, Participant;
    if tables == [] {
      assert vars + AllVars(tables) == vars;
      if cs != [] { assert cs[0] in cs; }
    } else {
      hide AllVars;
      var i := Pick(tables, cs, vars);
      var newVars := VarsOf(tables[i]);
      var left := Select(cs, newVars, newVars + vars, Left);
      assert newVars + vars == vars + newVars;
      LeftForLater(tables, i, cs, vars);
      var sources' := if exists c | c in cs :: Participant(c, newVars) then
          sources + [PlanFrom(tables, cs, vars, groups, sources).index] else sources;
      EachClauseEarly(Without(tables, i), left, newVars + vars, groups, sources');
    }
  }

  // ---------- which earlier indexes filter a table ----------

  /** All that the index is keyed by, as far as it is in a group, has an equal among the new key columns. */
  ghost predicate CanReuse(source: Index, outVars: seq<Var>, groups: seq<seq<Var>>) {
    && (exists v | v in source.outVars :: Group(v, groups) != [])
    && forall v | v in source.outVars && Group(v, groups) != [] :: Meets(outVars, Group(v, groups))
  }

  ghost predicate HasKeys(source: Index, inVars: seq<Var>) {
    exists v | v in inVars :: v in source.table.vars
  }

  /** The probe that an earlier index gives: its own keys where they can be reused, or else the values of
      exactly those join variables that its table has. */
  ghost predicate Gives(source: Index, inVars: seq<Var>, outVars: seq<Var>, groups: seq<seq<Var>>, p: Probe) {
    && p.source == source
    && if CanReuse(source, outVars, groups) then p.Reuse?
       else p.Keys? && HasKeys(source, inVars)
            && forall v :: v in p.inVars <==> v in inVars && v in source.table.vars
  }

  lemma {:induction false} InGroupsOf(vars: seq<Var>, groups: seq<seq<Var>>, g: seq<Var>)
    ensures g in GroupsOf(vars, groups) <==> exists v | v in vars :: g == Group(v, groups) != []
  {
    if vars != [] {
      InGroupsOf(vars[1..], groups, g);
      if v :| v in vars && g == Group(v, groups) != [] {
        if v != vars[0] { assert v in vars[1..]; }
      }
      if g in GroupsOf(vars, groups) && g !in GroupsOf(vars[1..], groups) {
        assert vars[0] in vars && g == Group(vars[0], groups) != [];
      }
    }
  }

  lemma ReuseIff(source: Index, outVars: seq<Var>, groups: seq<seq<Var>>)
    ensures var gs := GroupsOf(source.outVars, groups);
            CanReuse(source, outVars, groups) <==> gs != [] && forall g | g in gs :: Meets(outVars, g)
  {
    hide Meets;
    var gs := GroupsOf(source.outVars, groups);
    forall g ensures g in gs <==> exists v | v in source.outVars :: g == Group(v, groups) != [] {
      InGroupsOf(source.outVars, groups, g);
    }
    if gs != [] { assert gs[0] in gs; }
    forall v | v in source.outVars && Group(v, groups) != [] ensures Group(v, groups) in gs {}
  }

  lemma ProbeOfGives(source: Index, inVars: seq<Var>, outVars: seq<Var>, groups: seq<seq<Var>>)
    ensures var ps := ProbeOf(source, inVars, outVars, groups);
            && |ps| == (if CanReuse(source, outVars, groups) || HasKeys(source, inVars) then 1 else 0)
            && forall p | p in ps :: Gives(source, inVars, outVars, groups, p)
  {
    hide CanReuse, GroupsOf, Meets;
    ReuseIff(source, outVars, groups);
    var sipIn := Among(inVars, VarsOf(source.table));
    if sipIn != [] { assert sipIn[0] in sipIn; }
    assert HasKeys(source, inVars) <==> sipIn != [];
  }

  /** Every earlier index that can be reused or has some of the join variables filters, and no other. */
  ghost predicate AllFilter(probes: seq<Probe>, sources: seq<Index>, inVars: seq<Var>, outVars: seq<Var>,
      groups: seq<seq<Var>>)
  {
    && (forall source | source in sources && (CanReuse(source, outVars, groups) || HasKeys(source, inVars)) ::
          exists p | p in probes :: Gives(source, inVars, outVars, groups, p))
    && (forall p | p in probes :: p.source in sources && Gives(p.source, inVars, outVars, groups, p))
    && |probes| <= |sources|
  }

  lemma {:induction false} EveryIndexFilters(sources: seq<Index>, inVars: seq<Var>, outVars: seq<Var>,
      groups: seq<seq<Var>>)
    ensures AllFilter(ProbesOf(sources, inVars, outVars, groups), sources, inVars, outVars, groups)
  {
    hide ProbeOf, CanReuse, HasKeys, Gives;
    if sources != [] {
      EveryIndexFilters(sources[1..], inVars, outVars, groups);
      ProbeOfGives(sources[0], inVars, outVars, groups);
      FirstGives(sources[0], inVars, outVars, groups);
      var first, rest := ProbeOf(sources[0], inVars, outVars, groups), ProbesOf(sources[1..], inVars, outVars, groups);
      assert forall p :: p in first + rest <==> p in first || p in rest;
      assert forall source :: source in sources <==> source == sources[0] || source in sources[1..];
    }
  }

  /** In the whole plan, where sources are the indexes built before. */
  ghost predicate Sideways(plan: Plan, sources: seq<Index>, groups: seq<seq<Var>>) {
    match plan
    case Scan(_, _, rest) => Sideways(rest, sources, groups)
    case Join(ix, inVars, _, rest) =>
      AllFilter(ix.probes, sources, inVars, ix.outVars, groups) && Sideways(rest, sources + [ix], groups)
    case Filter(_) => true
  }

  /** Each new index of a plan is filtered by every earlier one that has something to say about its keys. */
  lemma {:induction false} PlanIsSideways(tables: seq<Table>, cs: seq<Clause>, vars: set<Var>,
      groups: seq<seq<Var>>, sources: seq<Index>)
    ensures Sideways(PlanFrom(tables, cs, vars, groups, sources), sources, groups)
    decreases |tables|
  {
    hide Pick, ProbesOf, InVars, OutVars, VarsOf, Classify, Participant, AllFilter, Select;
    if tables != [] {
      var i := Pick(tables, cs, vars);
      var newVars := VarsOf(tables[i]);
      var left := Select(cs, newVars, newVars + vars, Left);
      var equi := Select(cs, newVars, newVars + vars, ToJoin);
      EveryIndexFilters(sources, InVars(equi, newVars), OutVars(equi, newVars), groups);
      var sources' := if exists c | c in cs :: Participant(c, newVars) then
          sources + [PlanFrom(tables, cs, vars, groups, sources).index] else sources;
      PlanIsSideways(Without(tables, i), left, newVars + vars, groups, sources');
    }
  }

  lemma FirstGives(source: Index, inVars: seq<Var>, outVars: seq<Var>, groups: seq<seq<Var>>)
    ensures forall p | p in ProbeOf(source, inVars, outVars, groups) ::
              p.source == source && Gives(source, inVars, outVars, groups, p)
    ensures CanReuse(source, outVars, groups) || HasKeys(source, inVars) ==>
              exists p | p in ProbeOf(source, inVars, outVars, groups) :: Gives(source, inVars, outVars, groups, p)
  {
    hide CanReuse, HasKeys;
    ProbeOfGives(source, inVars, outVars, groups);
    var ps := ProbeOf(source, inVars, outVars, groups);
    if ps != [] { assert ps[0] in ps; }
  }
}
