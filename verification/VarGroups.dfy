/** Grouping the variables that the equalities of a WHERE clause make equal: groups that share a
    variable are merged until nothing changes. */
module VarGroups {

  type Var = nat

  /** delete-duplicates keeps the last occurrence. */
  function Distinct<T(==,!new)>(xs: seq<T>): (r: seq<T>)
    ensures |r| <= |xs| && (|r| == |xs| ==> r == xs)
    ensures forall x :: x in r <==> x in xs
    ensures forall i, j | 0 <= i < j < |r| :: r[i] != r[j]
  {
    if xs == [] then [] else
    var rest := Distinct(xs[1..]);
    assert forall x :: x in xs <==> x == xs[0] || x in xs[1..];
    if xs[0] in xs[1..] then rest else [xs[0]] + rest
  }

  predicate Meets(g: seq<Var>, h: seq<Var>) {
    exists x | x in g :: x in h
  }

  function Joined(g: seq<Var>, groups: seq<seq<Var>>): (r: seq<Var>)
    ensures forall x :: x in r <==> exists i | 0 <= i < |groups| :: Meets(g, groups[i]) && x in groups[i]
  {
    if groups == [] then [] else
    var rest := Joined(g, groups[1..]);
    assert groups == [groups[0]] + groups[1..];
    if Meets(g, groups[0]) then groups[0] + rest else rest
  }

  function Grown(groups: seq<seq<Var>>): (r: seq<seq<Var>>)
    ensures |r| == |groups|
  {
    seq(|groups|, i requires 0 <= i < |groups| => Distinct(Joined(groups[i], groups)))
  }

  function Merge(groups: seq<seq<Var>>): seq<seq<Var>> {
    Distinct(Grown(groups))
  }

  // ---------- termination ----------

  function Elements(groups: seq<seq<Var>>): set<Var> {
    set i, x | 0 <= i < |groups| && x in groups[i] :: x
  }

  function SetOf(g: seq<Var>): set<Var> {
    set x | x in g
  }

  /** How many variables the groups do not contain, summed over the groups. */
  function Missing(groups: seq<seq<Var>>, all: set<Var>): nat {
    if groups == [] then 0 else |all - SetOf(groups[0])| + Missing(groups[1..], all)
  }

  function Length(groups: seq<seq<Var>>): nat {
    if groups == [] then 0 else |groups[0]| + Length(groups[1..])
  }

  lemma {:induction false} LengthShrinks(a: seq<seq<Var>>, b: seq<seq<Var>>)
    requires |a| == |b| && a != b
    requires forall i | 0 <= i < |a| :: b[i] == Distinct(a[i])
    ensures Length(b) < Length(a)
  {
    if a[0] == b[0] {
      assert a == [a[0]] + a[1..] && b == [b[0]] + b[1..];
      LengthShrinks(a[1..], b[1..]);
    } else {
      LengthNoMore(a[1..], b[1..]);
    }
  }

  lemma {:induction false} LengthNoMore(a: seq<seq<Var>>, b: seq<seq<Var>>)
    requires |a| == |b|
    requires forall i | 0 <= i < |a| :: b[i] == Distinct(a[i])
    ensures Length(b) <= Length(a)
  {
    if a != [] { LengthNoMore(a[1..], b[1..]); }
  }

  lemma {:induction false} MissingNoMore(a: seq<seq<Var>>, b: seq<seq<Var>>, all: set<Var>)
    requires |a| == |b|
    requires forall i | 0 <= i < |a| :: SetOf(a[i]) <= SetOf(b[i]) <= all
    ensures Missing(b, all) <= Missing(a, all)
    ensures Missing(b, all) == Missing(a, all) ==> forall i | 0 <= i < |a| :: SetOf(a[i]) == SetOf(b[i])
  {
    hide SetOf;
    if a != [] {
      MissingNoMore(a[1..], b[1..], all);
      ComplementSmaller(SetOf(a[0]), SetOf(b[0]), all);
      if Missing(b, all) == Missing(a, all) {
        forall i | 0 <= i < |a| ensures SetOf(a[i]) == SetOf(b[i]) {
          if i > 0 { assert a[i] == a[1..][i - 1] && b[i] == b[1..][i - 1]; }
        }
      }
    }
  }

  lemma ComplementSmaller(a: set<Var>, b: set<Var>, all: set<Var>)
    requires a <= b <= all
    ensures |all - b| <= |all - a| && (|all - b| == |all - a| ==> a == b)
  {
    Smaller(all - b, all - a);
    if |all - b| == |all - a| { assert a == all - (all - a) == all - (all - b) == b; }
  }

  lemma {:induction false} Smaller(a: set<Var>, b: set<Var>)
    requires a <= b
    ensures |a| <= |b| && (|a| == |b| ==> a == b)
  {
    assert b == a + (b - a);
    assert |b| == |a| + |b - a|;
    if |a| == |b| { assert b - a == {}; }
  }

  lemma GrownContains(groups: seq<seq<Var>>, i: nat)
    requires i < |groups|
    ensures SetOf(groups[i]) <= SetOf(Grown(groups)[i]) <= Elements(groups)
  {
    if groups[i] != [] {
      assert groups[i][0] in groups[i];
      assert Meets(groups[i], groups[i]);
    }
  }

  lemma GrownElements(groups: seq<seq<Var>>)
    ensures Elements(Grown(groups)) == Elements(groups) == Elements(Merge(groups))
  {
    var grown := Grown(groups);
    forall x ensures x in Elements(grown) <==> x in Elements(groups) {
      if x in Elements(groups) {
        var i :| 0 <= i < |groups| && x in groups[i];
        GrownContains(groups, i);
        assert x in grown[i];
      }
      if x in Elements(grown) {
        var i :| 0 <= i < |grown| && x in grown[i];
        GrownContains(groups, i);
        assert x in SetOf(grown[i]);
      }
    }
    SameElements(grown, Distinct(grown));
  }

  lemma SameElements(a: seq<seq<Var>>, b: seq<seq<Var>>)
    requires forall g :: g in a <==> g in b
    ensures Elements(a) == Elements(b)
  {
    forall x ensures x in Elements(a) <==> x in Elements(b) {
      if x in Elements(a) {
        var i :| 0 <= i < |a| && x in a[i];
        assert a[i] in b;
        var j :| 0 <= j < |b| && b[j] == a[i];
      }
      if x in Elements(b) {
        var i :| 0 <= i < |b| && x in b[i];
        assert b[i] in a;
        var j :| 0 <= j < |a| && a[j] == b[i];
      }
    }
  }

  /** If merging changes no set and loses no group, the groups are disjoint, so each is only rid of
      its own duplicates. */
  lemma SettledAlone(groups: seq<seq<Var>>, i: nat)
    requires i < |groups| && Merge(groups) == Grown(groups)
    requires forall j | 0 <= j < |groups| :: SetOf(Grown(groups)[j]) == SetOf(groups[j])
    ensures Grown(groups)[i] == Distinct(groups[i])
  {
    forall j | 0 <= j < |groups| && j != i ensures !Meets(groups[i], groups[j]) {
      if Meets(groups[i], groups[j]) { SettledMeets(groups, i, j); }
    }
    JoinedAlone(groups[i], groups, i);
  }

  lemma SettledMeets(groups: seq<seq<Var>>, i: nat, j: nat)
    requires i < |groups| && j < |groups| && Meets(groups[i], groups[j])
    requires forall j | 0 <= j < |groups| :: SetOf(Grown(groups)[j]) == SetOf(groups[j])
    ensures Grown(groups)[i] == Grown(groups)[j]
  {
    var grown := Grown(groups);
    assert SetOf(groups[j]) <= SetOf(grown[i]);
    assert SetOf(groups[i]) <= SetOf(grown[j]) by { assert Meets(groups[j], groups[i]); }
    assert SetOf(groups[i]) == SetOf(groups[j]);
    JoinedSame(groups[i], groups[j], groups);
  }

  lemma {:induction false} JoinedSame(g: seq<Var>, h: seq<Var>, groups: seq<seq<Var>>)
    requires SetOf(g) == SetOf(h)
    ensures Joined(g, groups) == Joined(h, groups)
  {
    if groups != [] {
      JoinedSame(g, h, groups[1..]);
      assert Meets(g, groups[0]) == Meets(h, groups[0]) by {
        forall x ensures x in g <==> x in h { assert x in SetOf(g) <==> x in SetOf(h); }
      }
    }
  }

  lemma {:induction false} JoinedAlone(g: seq<Var>, groups: seq<seq<Var>>, i: nat)
    requires i < |groups| && groups[i] == g
    requires forall j | 0 <= j < |groups| && j != i :: !Meets(g, groups[j])
    ensures Joined(g, groups) == g
  {
    if i == 0 {
      JoinedNone(g, groups[1..]);
      if g != [] { assert g[0] in g && Meets(g, g); }
    } else {
      JoinedAlone(g, groups[1..], i - 1);
    }
  }

  lemma {:induction false} JoinedNone(g: seq<Var>, groups: seq<seq<Var>>)
    requires forall j | 0 <= j < |groups| :: !Meets(g, groups[j])
    ensures Joined(g, groups) == []
  {
    if groups != [] { JoinedNone(g, groups[1..]); }
  }

  /** Every merge that changes something makes the groups fewer, or larger, or shorter. */
  lemma MergeShrinks(groups: seq<seq<Var>>)
    requires Merge(groups) != groups
    ensures var next := Merge(groups);
            var all := Elements(groups);
            Elements(next) == all &&
            (|next| < |groups|
             || (|next| == |groups| && Missing(next, all) < Missing(groups, all))
             || (|next| == |groups| && Missing(next, all) == Missing(groups, all) && Length(next) < Length(groups)))
  {
    GrownElements(groups);
    var grown := Grown(groups);
    if |Merge(groups)| == |groups| {
      assert Merge(groups) == grown;
      forall i | 0 <= i < |groups| ensures SetOf(groups[i]) <= SetOf(grown[i]) <= Elements(groups) {
        GrownContains(groups, i);
      }
      MissingNoMore(groups, grown, Elements(groups));
      if Missing(grown, Elements(groups)) == Missing(groups, Elements(groups)) {
        forall i | 0 <= i < |groups| ensures grown[i] == Distinct(groups[i]) {
          SettledAlone(groups, i);
        }
        LengthShrinks(groups, grown);
      }
    }
  }

  function BuildVarGroups(groups: seq<seq<Var>>): seq<seq<Var>>
    decreases |groups|, Missing(groups, Elements(groups)), Length(groups)
  {
    var next := Merge(groups);
    if next == groups then groups else
    MergeShrinks(groups);
    BuildVarGroups(next)
  }

  // ---------- what comes out ----------

  /** No given group crosses the border of this set. */
  predicate Respects(groups: seq<seq<Var>>, part: set<Var>) {
    forall i | 0 <= i < |groups| :: Touches(groups[i], part) ==> SetOf(groups[i]) <= part
  }

  predicate Touches(g: seq<Var>, part: set<Var>) {
    exists x | x in g :: x in part
  }

  /** Each group of a is inside some group of b. */
  predicate Inside(a: seq<seq<Var>>, b: seq<seq<Var>>) {
    forall i | 0 <= i < |a| :: Covered(a[i], b)
  }

  predicate Covered(g: seq<Var>, b: seq<seq<Var>>) {
    exists j | 0 <= j < |b| :: SetOf(g) <= SetOf(b[j])
  }

  /** Groups that meet are on the same side of the border. */
  lemma NeighbourRespects(groups: seq<seq<Var>>, part: set<Var>, i: nat, j: nat)
    requires Respects(groups, part) && i < |groups| && j < |groups|
    requires Meets(groups[i], groups[j]) && Touches(groups[i], part)
    ensures SetOf(groups[i]) <= part && SetOf(groups[j]) <= part
  {
    var y :| y in groups[i] && y in groups[j];
    assert y in SetOf(groups[i]);
    assert Touches(groups[j], part);
  }

  lemma GrownRespects(groups: seq<seq<Var>>, part: set<Var>, i: nat)
    requires Respects(groups, part) && i < |groups| && Touches(Grown(groups)[i], part)
    ensures SetOf(Grown(groups)[i]) <= part
  {
    var grown := Grown(groups)[i];
    var x :| x in grown && x in part;
    var j :| 0 <= j < |groups| && Meets(groups[i], groups[j]) && x in groups[j];
    hide Respects;
    assert Touches(groups[j], part) && Meets(groups[j], groups[i]);
    NeighbourRespects(groups, part, j, i);
    forall z | z in grown ensures z in part {
      var m :| 0 <= m < |groups| && Meets(groups[i], groups[m]) && z in groups[m];
      var w :| w in groups[i] && w in groups[m];
      assert w in SetOf(groups[i]) && Touches(groups[i], part);
      NeighbourRespects(groups, part, i, m);
      assert z in SetOf(groups[m]);
    }
  }

  lemma MergeRespects(groups: seq<seq<Var>>, part: set<Var>)
    requires Respects(groups, part)
    ensures Respects(Merge(groups), part)
  {
    hide Grown;
    var next := Merge(groups);
    forall k | 0 <= k < |next| && Touches(next[k], part) ensures SetOf(next[k]) <= part {
      assert next[k] in Grown(groups);
      var i :| 0 <= i < |groups| && Grown(groups)[i] == next[k];
      GrownRespects(groups, part, i);
    }
  }

  lemma MergeInside(groups: seq<seq<Var>>, given: seq<seq<Var>>)
    requires Inside(given, groups)
    ensures Inside(given, Merge(groups))
  {
    var next := Merge(groups);
    forall i | 0 <= i < |given| ensures Covered(given[i], next) {
      assert Covered(given[i], groups);
      var j :| 0 <= j < |groups| && SetOf(given[i]) <= SetOf(groups[j]);
      GrownContains(groups, j);
      assert Grown(groups)[j] in next;
      var k :| 0 <= k < |next| && next[k] == Grown(groups)[j];
      assert SetOf(given[i]) <= SetOf(next[k]);
    }
  }

  lemma {:induction false} GroupsRespect(groups: seq<seq<Var>>, part: set<Var>)
    requires Respects(groups, part)
    ensures Respects(BuildVarGroups(groups), part)
    decreases |groups|, Missing(groups, Elements(groups)), Length(groups)
  {
    if Merge(groups) != groups {
      MergeShrinks(groups);
      MergeRespects(groups, part);
      GroupsRespect(Merge(groups), part);
    }
  }

  lemma {:induction false} GroupsContain(groups: seq<seq<Var>>, given: seq<seq<Var>>)
    requires Inside(given, groups)
    ensures Inside(given, BuildVarGroups(groups))
    decreases |groups|, Missing(groups, Elements(groups)), Length(groups)
  {
    if Merge(groups) != groups {
      MergeShrinks(groups);
      MergeInside(groups, given);
      GroupsContain(Merge(groups), given);
    }
  }

  /** The last merge changed nothing. */
  lemma {:induction false} GroupsSettled(groups: seq<seq<Var>>)
    ensures Merge(BuildVarGroups(groups)) == BuildVarGroups(groups)
    decreases |groups|, Missing(groups, Elements(groups)), Length(groups)
  {
    if Merge(groups) != groups {
      MergeShrinks(groups);
      GroupsSettled(Merge(groups));
    }
  }

  /** Main result: the groups are exactly the connected components of the given ones: every given
      group lies in one of them, different ones share no variable, and none can be split, since each
      stays on one side of every border that no given group crosses. */
  lemma Components(given: seq<seq<Var>>)
    ensures var groups := BuildVarGroups(given);
            && Inside(given, groups)
            && (forall i, j | 0 <= i < j < |groups| :: !Meets(groups[i], groups[j]))
            && (forall part | Respects(given, part) :: Respects(groups, part))
  {
    var groups := BuildVarGroups(given);
    forall i | 0 <= i < |given| ensures Covered(given[i], given) {
      assert SetOf(given[i]) <= SetOf(given[i]);
    }
    GroupsContain(given, given);
    forall part | Respects(given, part) ensures Respects(groups, part) {
      GroupsRespect(given, part);
    }
    GroupsSettled(given);
    forall i, j | 0 <= i < j < |groups| ensures !Meets(groups[i], groups[j]) {
      if Meets(groups[i], groups[j]) { SettledApart(groups, i, j); }
    }
  }

  lemma SettledApart(groups: seq<seq<Var>>, i: nat, j: nat)
    requires Merge(groups) == groups && i < j < |groups|
    ensures !Meets(groups[i], groups[j])
  {
    if Meets(groups[i], groups[j]) {
      assert Grown(groups) == groups;
      SettledMeets(groups, i, j);
      assert false;
    }
  }
}
