/** Recursive common table expressions: the loop that feeds the rows of one round to the step and
    collects the rounds until one is empty. */
module RecursiveCte {
  import opened Wrappers

  ghost predicate NoRepeats<T(!new)>(rows: seq<T>) {
    forall i, j | 0 <= i < j < |rows| :: rows[i] != rows[j]
  }

  /** r has each of the rows exactly once, in the order in which they occur first. */
  ghost predicate FirstOccurrences<T(!new)>(r: seq<T>, rows: seq<T>) {
    && (forall x :: x in r <==> x in rows)
    && NoRepeats(r)
    && forall i, j | 0 <= i < j < |r| :: Before(rows, r[i], r[j])
  }

  /** x occurs in front of the first y. */
  predicate Before<T(==)>(rows: seq<T>, x: T, y: T) {
    exists k | 0 <= k < |rows| :: rows[k] == x && y !in rows[..k + 1]
  }

  lemma BeforeGrows<T>(rows: seq<T>, last: T, x: T, y: T)
    requires Before(rows, x, y)
    ensures Before(rows + [last], x, y)
  {
    var k :| 0 <= k < |rows| && rows[k] == x && y !in rows[..k + 1];
    assert (rows + [last])[..k + 1] == rows[..k + 1];
    assert (rows + [last])[k] == x;
  }

  lemma BeforeLast<T>(rows: seq<T>, x: T, last: T)
    requires x in rows && last !in rows
    ensures Before(rows + [last], x, last)
  {
    var k :| 0 <= k < |rows| && rows[k] == x;
    assert (rows + [last])[..k + 1] == rows[..k + 1];
    assert (rows + [last])[k] == x;
  }

  lemma OneMoreRow<T(!new)>(r: seq<T>, rows: seq<T>, last: T)
    requires FirstOccurrences(r, rows)
    ensures FirstOccurrences(if last in rows then r else r + [last], rows + [last])
  {
    hide Before;
    var r' := if last in rows then r else r + [last];
    forall i, j | 0 <= i < j < |r'| ensures Before(rows + [last], r'[i], r'[j]) {
      if j < |r| {
        BeforeGrows(rows, last, r[i], r[j]);
      } else {
        assert r[i] in r;
        BeforeLast(rows, r[i], last);
      }
    }
  }

  /** ra-distinct keeps the first of equal rows. */
  function KeepFirst<T(==, !new)>(rows: seq<T>): (r: seq<T>)
    ensures FirstOccurrences(r, rows)
  {
    if rows == [] then [] else
    var init, last := rows[..|rows| - 1], rows[|rows| - 1];
    assert rows == init + [last];
    OneMoreRow(KeepFirst(init), init, last);
    if last in init then KeepFirst(init) else KeepFirst(init) + [last]
  }

  /** UNION leaves each row once, at its first occurrence; UNION ALL leaves all rows as they are. */
  function Dedup<T(==, !new)>(rows: seq<T>, distinct: bool): (r: seq<T>)
    ensures if distinct then FirstOccurrences(r, rows) else r == rows
    ensures r == [] <==> rows == []
  {
    if distinct then
      var r := KeepFirst(rows);
      assert rows != [] ==> rows[0] in r;
      assert r != [] ==> r[0] in rows;
      r
    else rows
  }

  lemma DedupMembers<T(!new)>(rows: seq<T>, distinct: bool)
    ensures forall x :: x in Dedup(rows, distinct) <==> x in rows
  {
  }

  /** Rows without repeats, counted. */
  lemma {:induction false} OncePerRow<T(!new)>(rows: seq<T>, x: T)
    requires NoRepeats(rows)
    ensures multiset(rows)[x] == if x in rows then 1 else 0
  {
    if rows != [] {
      var init, last := rows[..|rows| - 1], rows[|rows| - 1];
      assert rows == init + [last];
      OncePerRow(init, x);
    }
  }

  /** The rows of round n. */
  function Round<T(==, !new)>(step: seq<T> -> seq<T>, init: seq<T>, distinct: bool, n: nat): seq<T> {
    if n == 0 then Dedup(init, distinct) else Dedup(step(Round(step, init, distinct, n - 1)), distinct)
  }

  function Rounds<T(==, !new)>(step: seq<T> -> seq<T>, init: seq<T>, distinct: bool, n: nat): seq<T> {
    if n == 0 then [] else Rounds(step, init, distinct, n - 1) + Round(step, init, distinct, n - 1)
  }

  /** Each round of UNION has every row that its step gives once. */
  lemma RoundOnce<T(!new)>(step: seq<T> -> seq<T>, init: seq<T>, n: nat)
    ensures FirstOccurrences(Round(step, init, true, n),
                             if n == 0 then init else step(Round(step, init, true, n - 1)))
  {
    hide FirstOccurrences;
  }

  /** The loop, given up after `fuel` rounds. */
  method Evaluate<T(==, !new)>(step: seq<T> -> seq<T>, init: seq<T>, distinct: bool,
      fuel: nat) returns (result: Option<seq<T>>, ghost n: nat)
    ensures result.Some? <==> exists k: nat | k <= fuel :: Round(step, init, distinct, k) == []
    ensures result.Some? ==>
              && n <= fuel && Round(step, init, distinct, n) == []
              && (forall k: nat | k < n :: Round(step, init, distinct, k) != [])
              && result.value == Dedup(Rounds(step, init, distinct, n), distinct)
              && (distinct ==> FirstOccurrences(result.value, Rounds(step, init, distinct, n)))
              && (!distinct ==> result.value == Rounds(step, init, distinct, n))
  {
    hide Dedup, FirstOccurrences;
    var last := Dedup(init, distinct);
    var acc := last;
    n := 0;
    var left: nat := fuel;
    assert Rounds(step, init, distinct, 1) == [] + Round(step, init, distinct, 0);
    while left > 0 && last != []
      invariant n + left == fuel
      invariant last == Round(step, init, distinct, n)
      invariant acc == Rounds(step, init, distinct, n + 1)
      invariant forall k: nat | k < n :: Round(step, init, distinct, k) != []
    {
      last := Dedup(step(last), distinct);
      acc := acc + last;
      n := n + 1;
      left := left - 1;
    }
    if last == [] {
      assert Rounds(step, init, distinct, n) + [] == Rounds(step, init, distinct, n);
      result := Some(Dedup(acc, distinct));
    } else {
      result := None;
    }
  }

  // ---------- UNION ----------

  /** The step works row by row: it gives what its rows give one at a time. */
  ghost predicate RowWise<T(!new)>(step: seq<T> -> seq<T>) {
    forall rows, x :: x in step(rows) <==> exists r | r in rows :: Gives(step, r, x)
  }

  predicate Gives<T(==)>(step: seq<T> -> seq<T>, r: T, x: T) {
    x in step([r])
  }

  /** Each row taken by itself, as in SELECT n + 1 FROM t WHERE n < 5. */
  function EachRow<T(!new)>(f: T -> seq<T>, rows: seq<T>): seq<T> {
    if rows == [] then [] else EachRow(f, rows[..|rows| - 1]) + f(rows[|rows| - 1])
  }

  /** Such steps are row-wise, and each row gives exactly its own rows. */
  lemma RowByRow<T(!new)>(f: T -> seq<T>)
    ensures RowWise(rows => EachRow(f, rows))
    ensures forall r, x :: Gives(rows => EachRow(f, rows), r, x) <==> x in f(r)
  {
    var step := rows => EachRow(f, rows);
    forall r, x ensures Gives(step, r, x) <==> x in f(r) {
      assert [r][..0] == [];
      assert EachRow(f, [r]) == [] + f(r);
    }
    forall rows, x ensures x in step(rows) <==> exists r | r in rows :: Gives(step, r, x) {
      InEachRow(f, rows, x);
    }
  }

  lemma {:induction false} InEachRow<T(!new)>(f: T -> seq<T>, rows: seq<T>, x: T)
    ensures x in EachRow(f, rows) <==> exists r | r in rows :: x in f(r)
  {
    if rows != [] {
      var init, last := rows[..|rows| - 1], rows[|rows| - 1];
      assert rows == init + [last];
      InEachRow(f, init, x);
    }
  }

  lemma GivenBy<T(!new)>(step: seq<T> -> seq<T>, rows: seq<T>, x: T) returns (r: T)
    requires RowWise(step) && x in step(rows)
    ensures r in rows && Gives(step, r, x)
  {
    hide Gives;
    r :| r in rows && Gives(step, r, x);
  }

  lemma GivenIn<T(!new)>(step: seq<T> -> seq<T>, rows: seq<T>, r: T, x: T)
    requires RowWise(step) && r in rows && Gives(step, r, x)
    ensures x in step(rows)
  {
    hide Gives;
  }

  ghost predicate ClosedUnder<T(!new)>(step: seq<T> -> seq<T>, init: seq<T>, s: iset<T>) {
    (forall x | x in init :: x in s) && forall r, x | r in s && Gives(step, r, x) :: x in s
  }

  lemma {:induction false} RoundsMembers<T(!new)>(step: seq<T> -> seq<T>, init: seq<T>, distinct: bool, n: nat, x: T)
    ensures x in Rounds(step, init, distinct, n) <==> exists k: nat | k < n :: x in Round(step, init, distinct, k)
  {
    hide Round, Rounds;
    if x in Rounds(step, init, distinct, n) {
      var k := FoundIn(step, init, distinct, n, x);
    }
    if k: nat :| k < n && x in Round(step, init, distinct, k) {
      Collected(step, init, distinct, n, x, k);
    }
  }

  lemma {:induction false} FoundIn<T(!new)>(step: seq<T> -> seq<T>, init: seq<T>, distinct: bool, n: nat,
      x: T) returns (k: nat)
    requires x in Rounds(step, init, distinct, n)
    ensures k < n && x in Round(step, init, distinct, k)
  {
    hide Round;
    if x in Round(step, init, distinct, n - 1) { k := n - 1; } else { k := FoundIn(step, init, distinct, n - 1, x); }
  }

  lemma {:induction false} Collected<T(!new)>(step: seq<T> -> seq<T>, init: seq<T>, distinct: bool, n: nat, x: T,
      k: nat)
    requires k < n && x in Round(step, init, distinct, k)
    ensures x in Rounds(step, init, distinct, n)
  {
    hide Round;
    if k < n - 1 { Collected(step, init, distinct, n - 1, x, k); }
  }

  lemma {:induction false} RoundInside<T(!new)>(step: seq<T> -> seq<T>, init: seq<T>, distinct: bool, n: nat,
      s: iset<T>)
    requires RowWise(step) && ClosedUnder(step, init, s)
    ensures forall x | x in Round(step, init, distinct, n) :: x in s
  {
    hide RowWise, Gives;
    if n > 0 {
      RoundInside(step, init, distinct, n - 1, s);
      var before := Round(step, init, distinct, n - 1);
      forall x | x in Round(step, init, distinct, n) ensures x in s {
        var r := GivenBy(step, before, x);
      }
    }
  }

  /** Main result for UNION: once a round is empty, the result is as a set the least fixpoint of "the initial
      rows and what the step makes of the result", and has each of its rows once, in the order in which
      the rounds give them first. */
  lemma LeastFixpoint<T(!new)>(step: seq<T> -> seq<T>, init: seq<T>, distinct: bool, n: nat)
    requires RowWise(step) && Round(step, init, distinct, n) == []
    ensures var result := Dedup(Rounds(step, init, distinct, n), distinct);
            && (forall x :: x in result <==> x in init || x in step(result))
            && (distinct ==> FirstOccurrences(result, Rounds(step, init, distinct, n)))
            && (forall s: iset<T> | ClosedUnder(step, init, s) :: forall x | x in result :: x in s)
  {
    hide RowWise, Gives;
    var all := Rounds(step, init, distinct, n);
    var result := Dedup(all, distinct);
    DedupMembers(all, distinct);
    assert distinct ==> FirstOccurrences(result, all);
    hide FirstOccurrences, Dedup;
    forall x ensures x in result <==> x in init || x in step(result) {
      if x in result { ComesFrom(step, init, distinct, n, x); }
      if x in init { FirstRound(step, init, distinct, n, x); }
      if x in step(result) {
        var r := GivenBy(step, result, x);
        StepStays(step, init, distinct, n, r, x);
      }
    }
    forall s: iset<T>, x | ClosedUnder(step, init, s) && x in result ensures x in s {
      RoundsMembers(step, init, distinct, n, x);
      var k: nat :| k < n && x in Round(step, init, distinct, k);
      RoundInside(step, init, distinct, k, s);
    }
  }

  lemma FirstRound<T(!new)>(step: seq<T> -> seq<T>, init: seq<T>, distinct: bool, n: nat, x: T)
    requires Round(step, init, distinct, n) == [] && x in init
    ensures x in Rounds(step, init, distinct, n)
  {
    assert x in Round(step, init, distinct, 0);
    RoundsMembers(step, init, distinct, n, x);
  }

  lemma ComesFrom<T(!new)>(step: seq<T> -> seq<T>, init: seq<T>, distinct: bool, n: nat, x: T)
    requires RowWise(step) && x in Rounds(step, init, distinct, n)
    ensures x in init || x in step(Dedup(Rounds(step, init, distinct, n), distinct))
  {
    hide RowWise, Gives;
    RoundsMembers(step, init, distinct, n, x);
    var k: nat :| k < n && x in Round(step, init, distinct, k);
    if k > 0 {
      var j: nat := k - 1;
      var r := GivenBy(step, Round(step, init, distinct, j), x);
      RoundsMembers(step, init, distinct, n, r);
      assert r in Round(step, init, distinct, j);
      assert r in Rounds(step, init, distinct, n);
      GivenIn(step, Dedup(Rounds(step, init, distinct, n), distinct), r, x);
    }
  }

  lemma StepStays<T(!new)>(step: seq<T> -> seq<T>, init: seq<T>, distinct: bool, n: nat, r: T, x: T)
    requires RowWise(step) && Round(step, init, distinct, n) == []
    requires r in Rounds(step, init, distinct, n) && Gives(step, r, x)
    ensures x in Rounds(step, init, distinct, n)
  {
    hide RowWise, Gives;
    RoundsMembers(step, init, distinct, n, r);
    var k: nat :| k < n && r in Round(step, init, distinct, k);
    GivenIn(step, Round(step, init, distinct, k), r, x);
    var j: nat := k + 1;
    assert x in Round(step, init, distinct, j);
    NotEmpty(step, init, distinct, n, j, x);
    RoundsMembers(step, init, distinct, n, x);
  }

  lemma NotEmpty<T(!new)>(step: seq<T> -> seq<T>, init: seq<T>, distinct: bool, n: nat, j: nat, x: T)
    requires Round(step, init, distinct, n) == [] && x in Round(step, init, distinct, j)
    ensures j != n
  {
    var round := Round(step, init, distinct, n);
    assert x !in round;
  }

  // ---------- UNION ALL ----------

  /** As bags, the step of two lists of rows is the sum of their steps. */
  ghost predicate Additive<T(!new)>(step: seq<T> -> seq<T>) {
    forall a, b :: multiset(step(a + b)) == multiset(step(a)) + multiset(step(b))
  }

  /** The n-fold step, without anything in between. */
  function Iterate<T>(step: seq<T> -> seq<T>, init: seq<T>, n: nat): seq<T> {
    if n == 0 then init else step(Iterate(step, init, n - 1))
  }

  ghost function Total<T>(step: seq<T> -> seq<T>, init: seq<T>, n: nat): multiset<T> {
    if n == 0 then multiset{} else Total(step, init, n - 1) + multiset(Iterate(step, init, n - 1))
  }

  lemma NothingFromNothing<T(!new)>(step: seq<T> -> seq<T>)
    requires Additive(step)
    ensures step([]) == []
  {
    var none: seq<T> := [];
    assert none + none == none;
    var m := multiset(step(none));
    assert m == m + m;
    assert |m| == |m| + |m|;
  }

  lemma {:induction false} RoundsAreIterates<T(!new)>(step: seq<T> -> seq<T>, init: seq<T>, n: nat)
    ensures Round(step, init, false, n) == Iterate(step, init, n)
    ensures multiset(Rounds(step, init, false, n)) == Total(step, init, n)
  {
    if n > 0 {
      RoundsAreIterates(step, init, n - 1);
      RoundIsIterate(step, init, n);
    }
  }

  lemma {:induction false} RoundIsIterate<T(!new)>(step: seq<T> -> seq<T>, init: seq<T>, n: nat)
    ensures Round(step, init, false, n) == Iterate(step, init, n)
  {
    if n > 0 { RoundIsIterate(step, init, n - 1); }
  }

  /** Main result for UNION ALL: once a round is empty, the collected rows are as a bag the sum of all
      iterates of the step, however many are added. */
  lemma {:induction false} SumOfIterates<T(!new)>(step: seq<T> -> seq<T>, init: seq<T>, n: nat, m: nat)
    requires Additive(step) && Round(step, init, false, n) == [] && n <= m
    ensures multiset(Dedup(Rounds(step, init, false, n), false)) == Total(step, init, m)
    ensures Iterate(step, init, m) == []
    decreases m
  {
    RoundsAreIterates(step, init, n);
    if n < m {
      SumOfIterates(step, init, n, m - 1);
      NothingFromNothing(step);
    }
  }

  // ---------- when it stops ----------

  /** A rank below the bound on the initial rows that the step strictly lowers, on a set that the rows
      never leave. */
  ghost predicate Ranked<T(!new)>(step: seq<T> -> seq<T>, init: seq<T>, s: iset<T>, rank: T -> nat, bound: nat) {
    && (forall x | x in init :: x in s && rank(x) < bound)
    && forall r, x | r in s && Gives(step, r, x) :: x in s && rank(x) < rank(r)
  }

  ghost predicate Stops<T(!new)>(step: seq<T> -> seq<T>, init: seq<T>, distinct: bool) {
    exists n: nat :: Round(step, init, distinct, n) == []
  }

  lemma {:induction false} RanksFall<T(!new)>(step: seq<T> -> seq<T>, init: seq<T>, distinct: bool, s: iset<T>,
                                              rank: T -> nat, bound: nat, n: nat)
    requires RowWise(step) && Ranked(step, init, s, rank, bound)
    ensures forall x | x in Round(step, init, distinct, n) :: x in s && rank(x) + n < bound
    decreases n
  {
    hide RowWise, Gives;
    if n > 0 {
      RanksFall(step, init, distinct, s, rank, bound, n - 1);
      var before := Round(step, init, distinct, n - 1);
      forall x | x in Round(step, init, distinct, n) ensures x in s && rank(x) + n < bound {
        var r := GivenBy(step, before, x);
      }
    }
  }

  /** A rank bounds the number of rounds. */
  lemma {:induction false} RankedStops<T(!new)>(step: seq<T> -> seq<T>, init: seq<T>, distinct: bool, s: iset<T>,
                                                rank: T -> nat, bound: nat)
    requires RowWise(step) && Ranked(step, init, s, rank, bound)
    ensures Round(step, init, distinct, bound) == []
  {
    hide RowWise, Gives;
    RanksFall(step, init, distinct, s, rank, bound, bound);
    var round := Round(step, init, distinct, bound);
    if round != [] {
      var x := HasMember(round);
      assert false;
    }
  }

  lemma HasMember<T>(rows: seq<T>) returns (x: T)
    requires rows != []
    ensures x in rows
  {
    x := rows[0];
  }

  /** How many rounds remain after the last of the first n in which x occurs. */
  ghost function Remaining<T(!new)>(step: seq<T> -> seq<T>, init: seq<T>, distinct: bool, n: nat, x: T): nat {
    if n == 0 then 0
    else if x in Round(step, init, distinct, n - 1) then 1
    else 1 + Remaining(step, init, distinct, n - 1, x)
  }

  lemma {:induction false} RemainingBounds<T(!new)>(step: seq<T> -> seq<T>, init: seq<T>, distinct: bool, n: nat,
      x: T, k: nat)
    requires k < n && x in Round(step, init, distinct, k)
    ensures 1 <= Remaining(step, init, distinct, n, x) <= n - k
    ensures x in Round(step, init, distinct, n - Remaining(step, init, distinct, n, x))
  {
    hide Round;
    if x !in Round(step, init, distinct, n - 1) { RemainingBounds(step, init, distinct, n - 1, x, k); }
  }

  /** If some round is empty, counting back from it is a rank. */
  lemma StopsRanked<T(!new)>(step: seq<T> -> seq<T>, init: seq<T>, distinct: bool, n: nat)
    requires RowWise(step) && Round(step, init, distinct, n) == []
    ensures Ranked(step, init, (iset x | x in Rounds(step, init, distinct, n)),
                   x => Remaining(step, init, distinct, n, x), n + 1)
  {
    hide RowWise, Gives, Rounds, Remaining;
    forall x | x in init
      ensures x in Rounds(step, init, distinct, n) && Remaining(step, init, distinct, n, x) < n + 1
    {
      FirstRound(step, init, distinct, n, x);
      RemainsLess(step, init, distinct, n, x);
    }
    forall r, x | r in Rounds(step, init, distinct, n) && Gives(step, r, x)
      ensures x in Rounds(step, init, distinct, n)
      ensures Remaining(step, init, distinct, n, x) < Remaining(step, init, distinct, n, r)
    {
      StepStays(step, init, distinct, n, r, x);
      RemainingFalls(step, init, distinct, n, r, x);
    }
  }

  lemma RemainsLess<T(!new)>(step: seq<T> -> seq<T>, init: seq<T>, distinct: bool, n: nat, x: T)
    requires x in Rounds(step, init, distinct, n)
    ensures Remaining(step, init, distinct, n, x) <= n
  {
    RoundsMembers(step, init, distinct, n, x);
    var k: nat :| k < n && x in Round(step, init, distinct, k);
    RemainingBounds(step, init, distinct, n, x, k);
  }

  lemma RemainingFalls<T(!new)>(step: seq<T> -> seq<T>, init: seq<T>, distinct: bool, n: nat, r: T, x: T)
    requires RowWise(step) && Round(step, init, distinct, n) == []
    requires r in Rounds(step, init, distinct, n) && Gives(step, r, x)
    ensures Remaining(step, init, distinct, n, x) < Remaining(step, init, distinct, n, r)
  {
    hide RowWise, Gives, Remaining;
    RoundsMembers(step, init, distinct, n, r);
    var k: nat :| k < n && r in Round(step, init, distinct, k);
    RemainingBounds(step, init, distinct, n, r, k);
    var last: nat := n - Remaining(step, init, distinct, n, r);
    GivenIn(step, Round(step, init, distinct, last), r, x);
    var next: nat := last + 1;
    NotEmpty(step, init, distinct, n, next, x);
    RemainingBounds(step, init, distinct, n, x, next);
  }

  /** Main result on stopping: the loop stops exactly when the rows that can be reached carry a rank that
      the step strictly lowers. */
  lemma StopsIff<T(!new)>(step: seq<T> -> seq<T>, init: seq<T>, distinct: bool)
    requires RowWise(step)
    ensures Stops(step, init, distinct) <==> exists s, rank, bound :: Ranked(step, init, s, rank, bound)
  {
    hide RowWise, Ranked, Round;
    if n: nat :| Round(step, init, distinct, n) == [] {
      StopsRanked(step, init, distinct, n);
    }
    if s, rank, bound :| Ranked(step, init, s, rank, bound) {
      RankedStops(step, init, distinct, s, rank, bound);
    }
  }

  /** A path of rows from an initial one. */
  ghost predicate Path<T(!new)>(step: seq<T> -> seq<T>, init: seq<T>, path: seq<T>) {
    && path != [] && path[0] in init
    && forall i | 0 <= i < |path| - 1 :: Gives(step, path[i], path[i + 1])
  }

  lemma {:induction false} RankOnPath<T(!new)>(step: seq<T> -> seq<T>, init: seq<T>, s: iset<T>, rank: T -> nat,
      bound: nat,
                                               path: seq<T>, i: nat, j: nat)
    requires Ranked(step, init, s, rank, bound) && Path(step, init, path) && i <= j < |path|
    ensures path[j] in s && rank(path[j]) + (j - i) <= rank(path[i])
    decreases j
  {
    hide Gives;
    if j > 0 {
      if i < j {
        RankOnPath(step, init, s, rank, bound, path, i, j - 1);
      } else {
        RankOnPath(step, init, s, rank, bound, path, j - 1, j - 1);
      }
      assert Gives(step, path[j - 1], path[j - 1 + 1]);
    }
  }

  /** Rows seen before are not left out of later rounds, so any cycle that can be reached keeps the loop
      going for ever, under UNION too. */
  lemma CycleNeverStops<T(!new)>(step: seq<T> -> seq<T>, init: seq<T>, distinct: bool, path: seq<T>, i: nat, j: nat)
    requires RowWise(step) && Path(step, init, path) && i < j < |path| && path[i] == path[j]
    ensures !Stops(step, init, distinct)
  {
    hide RowWise, Ranked, Path;
    StopsIff(step, init, distinct);
    if s, rank, bound :| Ranked(step, init, s, rank, bound) {
      RankOnPath(step, init, s, rank, bound, path, i, j);
      assert false;
    }
  }

  ghost predicate PathsBounded<T(!new)>(step: seq<T> -> seq<T>, init: seq<T>, n: nat) {
    forall path | Path(step, init, path) :: |path| <= n
  }

  /** The same in terms of paths: the loop stops exactly when their length is bounded. */
  lemma StopsIffPathsBounded<T(!new)>(step: seq<T> -> seq<T>, init: seq<T>, distinct: bool)
    requires RowWise(step)
    ensures Stops(step, init, distinct) <==> exists n: nat :: PathsBounded(step, init, n)
  {
    hide RowWise, Path;
    if n: nat :| Round(step, init, distinct, n) == [] {
      forall path | Path(step, init, path) ensures |path| <= n {
        if |path| > n {
          PathInRounds(step, init, distinct, path, n);
          NotEmpty(step, init, distinct, n, n, path[n]);
        }
      }
      assert PathsBounded(step, init, n);
    }
    if n: nat :| PathsBounded(step, init, n) {
      var round := Round(step, init, distinct, n);
      if round != [] {
        var path := PathTo(step, init, distinct, n, round[0]);
        assert false;
      }
    }
  }

  lemma {:induction false} PathInRounds<T(!new)>(step: seq<T> -> seq<T>, init: seq<T>, distinct: bool, path: seq<T>,
      n: nat)
    requires RowWise(step) && Path(step, init, path) && n < |path|
    ensures path[n] in Round(step, init, distinct, n)
  {
    hide RowWise, Gives;
    if n > 0 {
      PathInRounds(step, init, distinct, path, n - 1);
      assert Gives(step, path[n - 1], path[n - 1 + 1]);
      GivenIn(step, Round(step, init, distinct, n - 1), path[n - 1], path[n]);
    }
  }

  lemma {:induction false} PathTo<T(!new)>(step: seq<T> -> seq<T>, init: seq<T>, distinct: bool, n: nat,
      x: T) returns (path: seq<T>)
    requires RowWise(step) && x in Round(step, init, distinct, n)
    ensures Path(step, init, path) && |path| == n + 1 && path[n] == x
  {
    hide RowWise, Gives;
    if n == 0 {
      path := [x];
    } else {
      var r := GivenBy(step, Round(step, init, distinct, n - 1), x);
      path := PathTo(step, init, distinct, n - 1, r);
      path := path + [x];
    }
  }
}
