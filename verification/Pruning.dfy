/** Skipping whole files by their column statistics: minimum, maximum and a bloom filter. */
module Pruning {
  import opened Planner
  import Bloom

  type Column = string

  type Record = map<Column, Value>

  /** A column that a row does not have reads as NULL. */
  function Field(row: Record, c: Column): Value {
    if c in row then row[c] else Null
  }

  datatype Op = Lt | Le | Gt | Ge

  /** The clauses that statistics can decide; columnFirst says on which side the column stands. */
  datatype Condition =
    | Equal(column: Column, y: Value)
    | Is(column: Column, y: Value)
    | In(column: Column, ys: seq<Value>)
    | Between(column: Column, lo: Value, hi: Value)
    | Compare(op: Op, columnFirst: bool, column: Column, y: Value)
    | Other(id: nat)

  predicate SqlIs(x: Value, y: Value) {
    x == y || SqlEq(x, y)
  }

  predicate Ordered(op: Op, x: Value, y: Value) {
    x.Scalar? && y.Scalar? &&
    match op
    case Lt => x.number < y.number
    case Le => x.number <= y.number
    case Gt => x.number > y.number
    case Ge => x.number >= y.number
  }

  /** Comparisons are a total order on numbers, and never true of NULL. */
  lemma OrderedMeans(x: Value, y: Value)
    ensures Ordered(Lt, x, y) <==> Ordered(Le, x, y) && !SqlEq(x, y)
    ensures SqlEq(x, y) <==> Ordered(Le, x, y) && Ordered(Ge, x, y)
    ensures Ordered(Gt, x, y) <==> Ordered(Lt, y, x)
    ensures Ordered(Ge, x, y) <==> Ordered(Le, y, x)
    ensures Ordered(Lt, x, y) || SqlEq(x, y) || Ordered(Gt, x, y) <==> x.Scalar? && y.Scalar?
  {
  }

  /** When the clause is exactly true. */
  predicate Satisfies(c: Condition, row: Record, other: (nat, Record) -> bool) {
    match c
    case Equal(column, y) => SqlEq(Field(row, column), y)
    case Is(column, y) => SqlIs(Field(row, column), y)
    case In(column, ys) => exists y | y in ys :: SqlEq(y, Field(row, column))
    case Between(column, lo, hi) => Ordered(Ge, Field(row, column), lo) && Ordered(Le, Field(row, column), hi)
    case Compare(op, columnFirst, column, y) =>
      if columnFirst then Ordered(op, Field(row, column), y) else Ordered(op, y, Field(row, column))
    case Other(id) => other(id, row)
  }

  datatype ColumnStats = ColumnStats(min: Value, max: Value, bloom: seq<bv8>)

  type Stats = map<Column, ColumnStats>

  /** Some hash of y is in the column's filter; without statistics there is no filter. */
  predicate BloomCheck(stats: Stats, c: Column, ys: seq<nat>) {
    c in stats && exists h | h in ys :: Bloom.Contains(stats[c].bloom, h)
  }

  /** The side of the range that a comparison looks at. */
  function Side(stats: Stats, op: Op, columnFirst: bool, c: Column): Value {
    if c !in stats then Null
    else if (op.Lt? || op.Le?) == columnFirst then stats[c].min
    else stats[c].max
  }

  function HashesOf(hashes: Value -> seq<nat>, ys: seq<Value>): (r: seq<nat>)
    ensures forall h, y | y in ys && h in hashes(y) :: h in r
  {
    if ys == [] then [] else hashes(ys[0]) + HashesOf(hashes, ys[1..])
  }

  /** The test that decides whether a file is read. */
  predicate MayMatch(c: Condition, stats: Stats, hashes: Value -> seq<nat>) {
    match c
    case Equal(column, y) => BloomCheck(stats, column, hashes(y))
    case Is(column, y) => BloomCheck(stats, column, hashes(y))
    case In(column, ys) => BloomCheck(stats, column, HashesOf(hashes, ys))
    case Between(column, lo, hi) =>
      column in stats && Ordered(Ge, stats[column].max, lo) && Ordered(Le, stats[column].min, hi)
    case Compare(op, columnFirst, column, y) =>
      var side := Side(stats, op, columnFirst, column);
      if columnFirst then Ordered(op, side, y) else Ordered(op, y, side)
    case Other(_) => true
  }

  /** The filter holds one hash per value, the check tries a hash for every form an equal value may have. */
  ghost predicate HashesAgree(hash: Value -> nat, hashes: Value -> seq<nat>) {
    forall v, y | SqlIs(v, y) :: hash(v) in hashes(y)
  }

  predicate CoversValue(s: ColumnStats, v: Value, hash: Value -> nat) {
    && Bloom.Contains(s.bloom, hash(v))
    && (v.Scalar? ==> Ordered(Le, s.min, v) && Ordered(Ge, s.max, v))
  }

  /** The statistics account for every value that a row has. Columns that a row does not have leave no
      trace in them, although they read as NULL. */
  ghost predicate Covers(stats: Stats, rows: seq<Record>, hash: Value -> nat) {
    forall row, c | row in rows && c in row :: c in stats && CoversValue(stats[c], row[c], hash)
  }

  /** The one way to lose a match: IS NULL on a column that the row lacks, in a file whose filter for the
      column does not know NULL. */
  predicate Missed(c: Condition, row: Record, stats: Stats, hashes: Value -> seq<nat>) {
    c.Is? && c.y == Null && c.column !in row && !BloomCheck(stats, c.column, hashes(Null))
  }

  /** Main result for one clause: a row that satisfies it is in a file that the clause rules out exactly
      when it is missed in this way. */
  lemma RulesOutAMatchIff(c: Condition, row: Record, stats: Stats, rows: seq<Record>,
                          hash: Value -> nat, hashes: Value -> seq<nat>, other: (nat, Record) -> bool)
    requires HashesAgree(hash, hashes) && Covers(stats, rows, hash)
    requires row in rows && Satisfies(c, row, other)
    ensures !MayMatch(c, stats, hashes) <==> Missed(c, row, stats, hashes)
  {
    hide Bloom.Contains;
    if !c.Other? && c.column in row {
      var v := Field(row, c.column);
      assert CoversValue(stats[c.column], v, hash);
      match c {
        case Equal(_, y) => assert SqlIs(v, y) && hash(v) in hashes(y);
        case Is(_, y) => assert SqlIs(v, y) && hash(v) in hashes(y);
        case In(_, ys) =>
          var y :| y in ys && SqlEq(y, v);
          assert SqlIs(v, y) && hash(v) in hashes(y);
        case _ =>
      }
    }
  }

  predicate Occurs(rows: seq<Record>, c: Column, v: Value) {
    exists row | row in rows :: c in row && row[c] == v
  }

  /** The minimum and maximum of a column are values of it. */
  ghost predicate Attained(stats: Stats, rows: seq<Record>) {
    forall c | c in stats ::
      && (stats[c].min.Scalar? ==> Occurs(rows, c, stats[c].min))
      && (stats[c].max.Scalar? ==> Occurs(rows, c, stats[c].max))
  }

  ghost predicate SomeSatisfies(c: Condition, rows: seq<Record>, other: (nat, Record) -> bool) {
    exists row | row in rows :: Satisfies(c, row, other)
  }

  /** Comparisons are decided as sharply as can be: a file is ruled out exactly when none of its rows
      satisfies the clause. */
  lemma ComparisonIsSharp(c: Condition, stats: Stats, rows: seq<Record>, hash: Value -> nat,
                          hashes: Value -> seq<nat>, other: (nat, Record) -> bool)
    requires c.Compare? && HashesAgree(hash, hashes) && Covers(stats, rows, hash) && Attained(stats, rows)
    ensures MayMatch(c, stats, hashes) <==> SomeSatisfies(c, rows, other)
  {
    hide Bloom.Contains, HashesAgree;
    if row :| row in rows && Satisfies(c, row, other) {
      RulesOutAMatchIff(c, row, stats, rows, hash, hashes, other);
    }
    if MayMatch(c, stats, hashes) {
      var side := Side(stats, c.op, c.columnFirst, c.column);
      var row :| row in rows && c.column in row && row[c.column] == side;
      assert Satisfies(c, row, other);
    }
  }

  /** BETWEEN is ruled out exactly when all values are below its lower bound, or all above its upper one. */
  lemma BetweenIsSharp(c: Condition, stats: Stats, rows: seq<Record>, hash: Value -> nat,
                       hashes: Value -> seq<nat>, other: (nat, Record) -> bool)
    requires c.Between? && HashesAgree(hash, hashes) && Covers(stats, rows, hash) && Attained(stats, rows)
    ensures MayMatch(c, stats, hashes)
            <==> SomeSatisfies(Compare(Ge, true, c.column, c.lo), rows, other)
                 && SomeSatisfies(Compare(Le, true, c.column, c.hi), rows, other)
  {
    ComparisonIsSharp(Compare(Ge, true, c.column, c.lo), stats, rows, hash, hashes, other);
    ComparisonIsSharp(Compare(Le, true, c.column, c.hi), stats, rows, hash, hashes, other);
  }

  // ---------- scanning ----------

  datatype File = File(stats: Stats, rows: seq<Record>)

  predicate All(cs: seq<Condition>, row: Record, other: (nat, Record) -> bool) {
    forall c | c in cs :: Satisfies(c, row, other)
  }

  function Matching(rows: seq<Record>, cs: seq<Condition>, other: (nat, Record) -> bool): seq<Record> {
    if rows == [] then [] else
    Matching(rows[..|rows| - 1], cs, other) + if All(cs, rows[|rows| - 1], other) then [rows[|rows| - 1]] else []
  }

  function AllRows(files: seq<File>): seq<Record> {
    if files == [] then [] else AllRows(files[..|files| - 1]) + files[|files| - 1].rows
  }

  lemma {:induction false} MatchingAppend(a: seq<Record>, b: seq<Record>, cs: seq<Condition>, other: (nat,
      Record) -> bool)
    ensures Matching(a + b, cs, other) == Matching(a, cs, other) + Matching(b, cs, other)
    decreases |b|
  {
    hide All;
    if b == [] {
      assert a + b == a;
    } else {
      assert (a + b)[..|a + b| - 1] == a + b[..|b| - 1];
      MatchingAppend(a, b[..|b| - 1], cs, other);
    }
  }

  lemma {:induction false} NothingMatches(rows: seq<Record>, cs: seq<Condition>, other: (nat, Record) -> bool)
    requires forall row | row in rows :: !All(cs, row, other)
    ensures Matching(rows, cs, other) == []
  {
    hide All;
    if rows != [] {
      assert rows[|rows| - 1] in rows;
      NothingMatches(rows[..|rows| - 1], cs, other);
    }
  }

  predicate MayRead(f: File, cs: seq<Condition>, hashes: Value -> seq<nat>) {
    forall c | c in cs :: MayMatch(c, f.stats, hashes)
  }

  function Read(files: seq<File>, cs: seq<Condition>, hashes: Value -> seq<nat>): seq<File> {
    if files == [] then [] else
    var f := files[|files| - 1];
    Read(files[..|files| - 1], cs, hashes) + if MayRead(f, cs, hashes) then [f] else []
  }

  /** Some row of the file matches the query but is missed by one of its clauses. */
  ghost predicate Loses(f: File, cs: seq<Condition>, other: (nat, Record) -> bool, hashes: Value -> seq<nat>) {
    exists row, c | row in f.rows && c in cs :: All(cs, row, other) && Missed(c, row, f.stats, hashes)
  }

  /** A file that is skipped has no match, or loses one. */
  lemma SkippedFile(f: File, cs: seq<Condition>, other: (nat, Record) -> bool, hash: Value -> nat,
      hashes: Value -> seq<nat>)
    requires HashesAgree(hash, hashes) && Covers(f.stats, f.rows, hash) && !MayRead(f, cs, hashes)
    ensures Loses(f, cs, other, hashes) <==> Matching(f.rows, cs, other) != []
  {
    hide MayMatch, Satisfies, Covers, HashesAgree, Missed;
    var c :| c in cs && !MayMatch(c, f.stats, hashes);
    if row :| row in f.rows && All(cs, row, other) {
      RulesOutAMatchIff(c, row, f.stats, f.rows, hash, hashes, other);
      assert Loses(f, cs, other, hashes);
      SomeMatches(f.rows, cs, other, row);
    } else {
      NothingMatches(f.rows, cs, other);
    }
  }

  lemma {:induction false} SomeMatches(rows: seq<Record>, cs: seq<Condition>, other: (nat, Record) -> bool, row: Record)
    requires row in rows && All(cs, row, other)
    ensures Matching(rows, cs, other) != []
  {
    hide All;
    if row != rows[|rows| - 1] { SomeMatches(rows[..|rows| - 1], cs, other, row); }
  }

  /** A file that is read loses nothing. */
  lemma ReadFile(f: File, cs: seq<Condition>, other: (nat, Record) -> bool, hash: Value -> nat,
      hashes: Value -> seq<nat>)
    requires HashesAgree(hash, hashes) && Covers(f.stats, f.rows, hash) && MayRead(f, cs, hashes)
    ensures !Loses(f, cs, other, hashes)
  {
    hide MayMatch, Satisfies, Covers, HashesAgree, Missed;
    forall row, c | row in f.rows && c in cs && All(cs, row, other) ensures !Missed(c, row, f.stats, hashes) {
      RulesOutAMatchIff(c, row, f.stats, f.rows, hash, hashes, other);
    }
  }

  lemma {:induction false} LosesIff(files: seq<File>, cs: seq<Condition>, other: (nat, Record) -> bool,
                                    hash: Value -> nat, hashes: Value -> seq<nat>)
    requires HashesAgree(hash, hashes) && forall f | f in files :: Covers(f.stats, f.rows, hash)
    ensures var got, all := Matching(AllRows(Read(files, cs, hashes)), cs, other), Matching(AllRows(files), cs, other);
            && |got| <= |all|
            && (got == all <==> |got| == |all|)
            && (got == all <==> forall f | f in files :: !Loses(f, cs, other, hashes))
  {
    hide HashesAgree, Covers, MayRead, Loses, Matching;
    if files != [] {
      var init, f := files[..|files| - 1], files[|files| - 1];
      assert files == init + [f];
      LosesIff(init, cs, other, hash, hashes);
      MatchingAppend(AllRows(init), f.rows, cs, other);
      if MayRead(f, cs, hashes) {
        ReadFile(f, cs, other, hash, hashes);
        var read := Read(init, cs, hashes);
        assert (read + [f])[..|read|] == read;
        MatchingAppend(AllRows(read), f.rows, cs, other);
      } else {
        SkippedFile(f, cs, other, hash, hashes);
        assert Read(init, cs, hashes) + [] == Read(init, cs, hashes);
      }
    }
  }

  /** Main result: the scan gives the rows of the files that it reads, in order, and these are the rows of
      the scan that reads every file exactly when no file loses one. */
  method Scan(files: seq<File>, cs: seq<Condition>, other: (nat, Record) -> bool, hashes: Value -> seq<nat>,
              ghost hash: Value -> nat) returns (acc: seq<Record>)
    requires HashesAgree(hash, hashes) && forall f | f in files :: Covers(f.stats, f.rows, hash)
    ensures acc == Matching(AllRows(Read(files, cs, hashes)), cs, other)
    ensures acc == Matching(AllRows(files), cs, other) <==> forall f | f in files :: !Loses(f, cs, other, hashes)
  {
    hide MayMatch, Satisfies, Covers, HashesAgree, All, Loses;
    acc := [];
    assert files[..0] == [];
    for i := 0 to |files|
      invariant acc == Matching(AllRows(Read(files[..i], cs, hashes)), cs, other)
    {
      var f := files[i];
      var read := Read(files[..i], cs, hashes);
      assert files[..i + 1][..i] == files[..i];
      if forall c | c in cs :: MayMatch(c, f.stats, hashes) {
        assert (read + [f])[..|read|] == read;
        MatchingAppend(AllRows(read), f.rows, cs, other);
        acc := ScanFile(acc, f.rows, cs, other);
      } else {
        assert read + [] == read;
      }
    }
    assert files[..|files|] == files;
    LosesIff(files, cs, other, hash, hashes);
  }

  method ScanFile(before: seq<Record>, rows: seq<Record>, cs: seq<Condition>, other: (nat,
      Record) -> bool) returns (acc: seq<Record>)
    ensures acc == before + Matching(rows, cs, other)
  {
    hide Satisfies;
    acc := before;
    assert rows[..0] == [];
    assert before + [] == before;
    for i := 0 to |rows|
      invariant acc == before + Matching(rows[..i], cs, other)
    {
      assert rows[..i + 1][..i] == rows[..i];
      if forall c | c in cs :: Satisfies(c, rows[i], other) {
        assert All(cs, rows[i], other);
        acc := acc + [rows[i]];
      }
    }
    assert rows[..|rows|] == rows;
  }

  // ---------- statistics ----------

  /** What is accumulated for one column: the range of the values that are not NULL, and the hashes of all. */
  datatype Agg = Agg(min: Value, max: Value, seen: seq<nat>)

  function Accumulate(agg: Agg, x: Value, h: nat): Agg {
    Agg(if x.Scalar? && (agg.min.Null? || !Ordered(Lt, agg.min, x)) then x else agg.min,
        if x.Scalar? && (agg.max.Null? || !Ordered(Gt, agg.max, x)) then x else agg.max,
        if h in agg.seen then agg.seen else agg.seen + [h])
  }

  predicate AggCovers(agg: Agg, v: Value, h: nat) {
    h in agg.seen && (v.Scalar? ==> Ordered(Le, agg.min, v) && Ordered(Ge, agg.max, v))
  }

  lemma AccumulateCovers(agg: Agg, x: Value, h: nat, v: Value, h': nat)
    requires agg.min.Null? <==> agg.max.Null?
    ensures AggCovers(Accumulate(agg, x, h), x, h)
    ensures AggCovers(agg, v, h') ==> AggCovers(Accumulate(agg, x, h), v, h')
    ensures Accumulate(agg, x, h).min.Null? <==> Accumulate(agg, x, h).max.Null?
  {
  }

  function AggOf(aggs: map<Column, Agg>, c: Column): Agg {
    if c in aggs then aggs[c] else Agg(Null, Null, [])
  }

  ghost predicate Paired(aggs: map<Column, Agg>) {
    forall c | c in aggs :: aggs[c].seen != [] && (aggs[c].min.Null? <==> aggs[c].max.Null?)
  }

  ghost predicate Accounts(aggs: map<Column, Agg>, row: Record, columns: set<Column>, hash: Value -> nat) {
    forall c | c in row && c in columns :: c in aggs && AggCovers(aggs[c], row[c], hash(row[c]))
  }

  /** The range of a column is that of values which it has. */
  ghost predicate FromRows(aggs: map<Column, Agg>, rows: seq<Record>) {
    forall c | c in aggs ::
      && (aggs[c].min.Scalar? ==> Occurs(rows, c, aggs[c].min))
      && (aggs[c].max.Scalar? ==> Occurs(rows, c, aggs[c].max))
  }

  lemma OneMoreFromRows(aggs: map<Column, Agg>, rows: seq<Record>, row: Record, k: Column, h: nat)
    requires FromRows(aggs, rows) && row in rows && k in row
    ensures FromRows(aggs[k := Accumulate(AggOf(aggs, k), row[k], h)], rows)
  {
    assert Occurs(rows, k, row[k]);
  }

  lemma MoreRows(aggs: map<Column, Agg>, rows: seq<Record>, row: Record)
    requires FromRows(aggs, rows)
    ensures FromRows(aggs, rows + [row])
  {
    forall c, v | Occurs(rows, c, v) ensures Occurs(rows + [row], c, v) {
      var r :| r in rows && c in r && r[c] == v;
      assert r in rows + [row];
    }
  }

  /** Nothing that is accounted for is lost by one more value. */
  lemma StillAccounts(aggs: map<Column, Agg>, row: Record, columns: set<Column>, hash: Value -> nat, k: Column,
      x: Value)
    requires Paired(aggs) && Accounts(aggs, row, columns, hash)
    ensures var next := aggs[k := Accumulate(AggOf(aggs, k), x, hash(x))];
            Paired(next) && Accounts(next, row, columns, hash)
    ensures var next := aggs[k := Accumulate(AggOf(aggs, k), x, hash(x))];
            AggCovers(next[k], x, hash(x))
  {
    var next := aggs[k := Accumulate(AggOf(aggs, k), x, hash(x))];
    AccumulateCovers(AggOf(aggs, k), x, hash(x), x, hash(x));
    forall c | c in row && c in columns ensures c in next && AggCovers(next[c], row[c], hash(row[c])) {
      AccumulateCovers(AggOf(aggs, k), x, hash(x), row[c], hash(row[c]));
    }
  }

  /** One record. */
  method AccumulateRow(before: map<Column, Agg>, row: Record, hash: Value -> nat, ghost rows: seq<Record>)
    returns (aggs: map<Column, Agg>)
    requires Paired(before) && forall r | r in rows :: Accounts(before, r, r.Keys, hash)
    requires FromRows(before, rows)
    ensures Paired(aggs) && Accounts(aggs, row, row.Keys, hash)
    ensures FromRows(aggs, rows + [row])
    ensures forall r | r in rows :: Accounts(aggs, r, r.Keys, hash)
    ensures aggs.Keys == before.Keys + row.Keys
  {
    hide Accounts, Paired, AggCovers, Accumulate, FromRows;
    aggs := before;
    MoreRows(aggs, rows, row);
    var left := row.Keys;
    NoColumns(aggs, row, hash);
    while left != {}
      invariant left <= row.Keys && Paired(aggs) && Accounts(aggs, row, row.Keys - left, hash)
      invariant forall r | r in rows :: Accounts(aggs, r, r.Keys, hash)
      invariant FromRows(aggs, rows + [row])
      invariant aggs.Keys == before.Keys + (row.Keys - left)
      decreases left
    {
      var k :| k in left;
      StillAccounts(aggs, row, row.Keys - left, hash, k, row[k]);
      forall r | r in rows ensures Accounts(aggs[k := Accumulate(AggOf(aggs, k), row[k], hash(row[k]))], r, r.Keys,
          hash) {
        StillAccounts(aggs, r, r.Keys, hash, k, row[k]);
      }
      OneMoreFromRows(aggs, rows + [row], row, k, hash(row[k]));
      aggs := aggs[k := Accumulate(AggOf(aggs, k), row[k], hash(row[k]))];
      OneMoreColumn(aggs, row, row.Keys - left, k, hash);
      assert row.Keys - left + {k} == row.Keys - (left - {k});
      left := left - {k};
    }
    assert row.Keys - {} == row.Keys;
  }

  lemma NoColumns(aggs: map<Column, Agg>, row: Record, hash: Value -> nat)
    ensures Accounts(aggs, row, row.Keys - row.Keys, hash)
  {
  }

  lemma OneMoreColumn(aggs: map<Column, Agg>, row: Record, columns: set<Column>, k: Column, hash: Value -> nat)
    requires Accounts(aggs, row, columns, hash) && k in row && k in aggs && AggCovers(aggs[k], row[k], hash(row[k]))
    ensures Accounts(aggs, row, columns + {k}, hash)
  {
  }

  /** calculate-stats: the statistics of the records of a file have exactly the columns that some record
      has, cover them, as Scan needs, and are no wider than they have to be. */
  method CalculateStats(rows: seq<Record>, hash: Value -> nat) returns (stats: Stats)
    ensures Covers(stats, rows, hash) && Attained(stats, rows)
    ensures forall c :: c in stats <==> exists row | row in rows :: c in row
  {
    hide Accounts, Covers, AggCovers, Occurs;
    var aggs: map<Column, Agg> := map[];
    for i := 0 to |rows|
      invariant Paired(aggs) && forall r | r in rows[..i] :: Accounts(aggs, r, r.Keys, hash)
      invariant forall c :: c in aggs <==> exists row | row in rows[..i] :: c in row
      invariant FromRows(aggs, rows[..i])
    {
      assert rows[..i + 1] == rows[..i] + [rows[i]];
      assert forall r :: r in rows[..i + 1] <==> r in rows[..i] || r == rows[i];
      aggs := AccumulateRow(aggs, rows[i], hash, rows[..i]);
    }
    assert rows[..|rows|] == rows;
    stats := Finish(aggs);
    CoveredRows(aggs, stats, rows, hash);
  }

  predicate Finished(agg: Agg, s: ColumnStats) {
    s.min == agg.min && s.max == agg.max && forall h | h in agg.seen :: Bloom.Contains(s.bloom, h)
  }

  method Finish(aggs: map<Column, Agg>) returns (stats: Stats)
    requires Paired(aggs)
    ensures stats.Keys == aggs.Keys && forall c | c in aggs :: Finished(aggs[c], stats[c])
  {
    stats := map[];
    var left := aggs.Keys;
    while left != {}
      invariant left <= aggs.Keys && stats.Keys == aggs.Keys - left
      invariant forall c | c in stats :: Finished(aggs[c], stats[c])
      decreases left
    {
      var k :| k in left;
      var bloom := Bloom.BuildFilter(aggs[k].seen, |aggs[k].seen|);
      stats := stats[k := ColumnStats(aggs[k].min, aggs[k].max, bloom[..])];
      left := left - {k};
    }
  }

  lemma CoveredRows(aggs: map<Column, Agg>, stats: Stats, rows: seq<Record>, hash: Value -> nat)
    requires forall r | r in rows :: Accounts(aggs, r, r.Keys, hash)
    requires stats.Keys == aggs.Keys && forall c | c in aggs :: Finished(aggs[c], stats[c])
    ensures Covers(stats, rows, hash)
  {
    hide Bloom.Contains;
    forall row, c | row in rows && c in row ensures c in stats && CoversValue(stats[c], row[c], hash) {
      assert Accounts(aggs, row, row.Keys, hash);
    }
  }

  /** A file that loses its row: the record has no column, so its statistics have none either. */
  lemma LostRow(hash: Value -> nat, hashes: Value -> seq<nat>, other: (nat, Record) -> bool)
    ensures var f := File(map[], [map[]]);
            Covers(f.stats, f.rows, hash) && Loses(f, [Is("a", Null)], other, hashes)
  {
    var f := File(map[], [map[]]);
    var row: Record := map[];
    assert row in f.rows && All([Is("a", Null)], row, other) && Missed(Is("a", Null), row, f.stats, hashes);
  }
}
