/** A successful parse loses no text: the leaves of its forest and the whitespace skipped around them
    tile the input from where the parse began to where it ended. */
module PegLossless {
  import opened Peg

  function Leaves(ts: seq<Tree>): seq<Tree>
    decreases ts
  {
    if ts == [] then [] else
    (match ts[0]
     case Node(_, _, _, kids) => Leaves(kids)
     case leaf => [leaf]) + Leaves(ts[1..])
  }

  /** b is reached from a by skipping whitespace some number of times. */
  ghost predicate Skips(e: Env, a: nat, b: nat)
    requires e.Valid() && a <= |e.input|
    decreases |e.input| - a
  {
    a == b || (a < Skip(e, a) <= b && Skips(e, Skip(e, a), b))
  }

  /** A leaf is non-empty text of the input; a literal's is the literal in any case. */
  ghost predicate LeafOf(e: Env, leaf: Tree) {
    match leaf
    case Node(_, _, _, _) => false
    case LiteralLeaf(literal, start, end) =>
      start < end <= |e.input| && EqIgnoreCase(e.input[start..end], literal)
    case PatternLeaf(start, end) => start < end <= |e.input|
  }

  /** The leaves follow one another from pos to end, with nothing but whitespace before the first,
      between two of them and after the last; after each of them it has been skipped. */
  ghost predicate Tiles(e: Env, leaves: seq<Tree>, pos: nat, end: nat)
    requires e.Valid() && pos <= |e.input|
    decreases |leaves|
  {
    if leaves == [] then Skips(e, pos, end) else
    LeafOf(e, leaves[0]) && Skips(e, pos, leaves[0].start) &&
    var after := leaves[0].end;
    Tiles(e, leaves[1..], after + e.lex.skip(e.input[after..]), end)
  }

  /** Where a pattern matches the empty string, only whitespace may lie before the match. */
  ghost predicate EmptyMatchesSkipped(e: Env)
    requires e.Valid()
  {
    forall regex, pos: nat | pos <= |e.input| :: EmptyMatchSkipped(e, regex, pos)
  }

  ghost predicate EmptyMatchSkipped(e: Env, regex: string, pos: nat)
    requires e.Valid() && pos <= |e.input|
  {
    var m := e.lex.find(regex, e.input[pos..]);
    m.Match? && m.start == m.end ==> Skips(e, pos, Skip(e, pos + m.end))
  }

  ghost predicate Lossless(e: Env, p: Peg, pos: nat, fuel: nat)
    requires e.Valid() && pos <= |e.input|
  {
    var r := Parse(e, p, pos, fuel);
    r.Parsed? ==> Tiles(e, Leaves(r.forest), pos, r.pos)
  }

  lemma {:induction false} SkipsTwice(e: Env, a: nat, b: nat, c: nat)
    requires e.Valid() && a <= |e.input| && b <= |e.input|
    requires Skips(e, a, b) && Skips(e, b, c)
    ensures Skips(e, a, c)
    decreases |e.input| - a
  {
    if a != b {
      SkipsTwice(e, Skip(e, a), b, c);
      SkipsForward(e, b, c);
    }
  }

  lemma {:induction false} SkipsForward(e: Env, a: nat, b: nat)
    requires e.Valid() && a <= |e.input| && Skips(e, a, b)
    ensures a <= b
    decreases |e.input| - a
  {
    if a != b { SkipsForward(e, Skip(e, a), b); }
  }

  lemma SkipOnce(e: Env, a: nat)
    requires e.Valid() && a <= |e.input|
    ensures Skips(e, a, Skip(e, a))
  {
    var b := Skip(e, a);
    if a != b { assert Skips(e, b, b); }
  }

  lemma {:induction false} LeavesAppend(a: seq<Tree>, b: seq<Tree>)
    ensures Leaves(a + b) == Leaves(a) + Leaves(b)
    decreases |a|
  {
    if a == [] {
      assert a + b == b;
    } else {
      assert (a + b)[1..] == a[1..] + b;
      LeavesAppend(a[1..], b);
    }
  }

  /** Skipped text and tiled text may be joined. */
  lemma {:induction false} SkipThenTiles(e: Env, leaves: seq<Tree>, a: nat, b: nat, c: nat)
    requires e.Valid() && a <= |e.input| && b <= |e.input|
    requires Skips(e, a, b) && Tiles(e, leaves, b, c)
    ensures Tiles(e, leaves, a, c)
  {
    SkipsTwice(e, a, b, if leaves == [] then c else leaves[0].start);
  }

  lemma {:induction false} TilesTwice(e: Env, left: seq<Tree>, right: seq<Tree>, a: nat, b: nat, c: nat)
    requires e.Valid() && a <= |e.input| && b <= |e.input|
    requires Tiles(e, left, a, b) && Tiles(e, right, b, c)
    ensures Tiles(e, left + right, a, c)
    decreases |left|
  {
    if left == [] {
      assert left + right == right;
      SkipThenTiles(e, right, a, b, c);
    } else {
      assert (left + right)[1..] == left[1..] + right;
      TilesTwice(e, left[1..], right, Skip(e, left[0].end), b, c);
    }
  }

  lemma OneLeaf(e: Env, leaf: Tree, pos: nat)
    requires e.Valid() && LeafOf(e, leaf) && leaf.start == pos
    ensures Tiles(e, Leaves([leaf]), pos, Skip(e, leaf.end))
  {
    assert [leaf][1..] == [];
    assert Leaves([leaf]) == [leaf];
    SkipOnce(e, leaf.end);
    assert Tiles(e, [], Skip(e, leaf.end), Skip(e, leaf.end));
  }

  lemma LosslessPattern(e: Env, regex: string, pos: nat)
    requires e.Valid() && pos <= |e.input| && EmptyMatchSkipped(e, regex, pos)
    ensures Lossless(e, Pattern(regex), pos, 0)
  {
    var m := e.lex.find(regex, e.input[pos..]);
    if m.Match? && m.start < m.end { OneLeaf(e, PatternLeaf(pos, pos + m.end), pos); }
  }

  lemma LosslessLiteral(e: Env, literal: string, pos: nat)
    requires e.Valid() && pos <= |e.input|
    ensures Lossless(e, Literal(literal), pos, 0)
  {
    if LiteralMatches(e, literal, pos) {
      var end := LiteralEnd(e, literal, pos);
      if pos < end { OneLeaf(e, LiteralLeaf(literal, pos, end), pos); } else { SkipOnce(e, pos); }
    }
  }

  lemma {:induction false} LosslessParse(e: Env, p: Peg, pos: nat, fuel: nat)
    requires e.Valid() && pos <= |e.input| && EmptyMatchesSkipped(e)
    ensures Lossless(e, p, pos, fuel)
    decreases fuel, p, 1
  {
    match p {
      case Seq(ps) => LosslessSeq(e, ps, pos, fuel);
      case Ord(ps) => LosslessOrd(e, ps, pos, fuel);
      case Pattern(regex) => assert EmptyMatchSkipped(e, regex, pos); LosslessPattern(e, regex, pos);
      case Literal(literal) => LosslessLiteral(e, literal, pos);
      case NonTerminal(id) => if fuel > 0 { LosslessRule(e, id, pos, fuel); }
      case Neg(q) => assert Skips(e, pos, pos);
      case Cut(q) => LosslessParse(e, q, pos, fuel);
      case Star(q) => LosslessStar(e, q, pos, fuel);
    }
  }

  lemma {:induction false} LosslessRule(e: Env, id: nat, pos: nat, fuel: nat)
    requires e.Valid() && pos <= |e.input| && EmptyMatchesSkipped(e) && fuel > 0
    ensures Lossless(e, NonTerminal(id), pos, fuel)
    decreases fuel, NonTerminal(id), 0
  {
    hide EmptyMatchesSkipped, Tiles;
    LosslessParse(e, e.g(id).body, pos, fuel - 1);
    var r := Parse(e, NonTerminal(id), pos, fuel);
    if r.Parsed? {
      assert r.forest[1..] == [];
      assert Leaves(r.forest) == Leaves(r.forest[0].kids);
    }
  }

  lemma {:induction false} LosslessSeq(e: Env, ps: Pegs, pos: nat, fuel: nat)
    requires e.Valid() && pos <= |e.input| && EmptyMatchesSkipped(e)
    ensures var r := ParseSeq(e, ps, pos, fuel);
            r.Parsed? ==> Tiles(e, Leaves(r.forest), pos, r.pos)
    decreases fuel, ps, 0
  {
    hide EmptyMatchesSkipped, Parse;
    if ps.Then? {
      LosslessParse(e, ps.first, pos, fuel);
      var first := Parse(e, ps.first, pos, fuel);
      if first.Parsed? {
        LosslessSeq(e, ps.rest, first.pos, fuel);
        TilesPrepend(e, first, ParseSeq(e, ps.rest, first.pos, fuel), pos);
      }
    }
  }

  lemma TilesPrepend(e: Env, first: Result, rest: Result, pos: nat)
    requires e.Valid() && pos <= |e.input| && first.Parsed? && first.pos <= |e.input|
    requires Tiles(e, Leaves(first.forest), pos, first.pos)
    requires rest.Parsed? ==> Tiles(e, Leaves(rest.forest), first.pos, rest.pos)
    ensures rest.Parsed? ==> Tiles(e, Leaves(Prepend(first.forest, rest).forest), pos, rest.pos)
  {
    if rest.Parsed? {
      LeavesAppend(first.forest, rest.forest);
      TilesTwice(e, Leaves(first.forest), Leaves(rest.forest), pos, first.pos, rest.pos);
    }
  }

  lemma {:induction false} LosslessOrd(e: Env, ps: Pegs, pos: nat, fuel: nat)
    requires e.Valid() && pos <= |e.input| && EmptyMatchesSkipped(e)
    ensures var r := ParseOrd(e, ps, pos, fuel);
            r.Parsed? ==> Tiles(e, Leaves(r.forest), pos, r.pos)
    decreases fuel, ps, 0
  {
    hide EmptyMatchesSkipped, Parse, Tiles;
    if ps.Then? {
      LosslessParse(e, ps.first, pos, fuel);
      LosslessOrd(e, ps.rest, pos, fuel);
    }
  }

  lemma {:induction false} LosslessStar(e: Env, q: Peg, pos: nat, fuel: nat)
    requires e.Valid() && pos <= |e.input| && EmptyMatchesSkipped(e)
    ensures var r := ParseStar(e, q, pos, fuel);
            r.Parsed? ==> Tiles(e, Leaves(r.forest), pos, r.pos)
    decreases fuel, q, 2
  {
    hide EmptyMatchesSkipped, Parse;
    if fuel > 0 {
      LosslessParse(e, q, pos, fuel);
      var first := Parse(e, q, pos, fuel);
      if first.Parsed? {
        LosslessStar(e, q, first.pos, fuel - 1);
        TilesPrepend(e, first, ParseStar(e, q, first.pos, fuel - 1), pos);
      } else {
        assert Skips(e, pos, pos);
      }
    }
  }

  /** Main result: every parse is lossless exactly when no pattern matches the empty string beyond
      the whitespace at the current position. */
  lemma {:induction false} LosslessIff(e: Env)
    requires e.Valid()
    ensures (forall p, pos: nat, fuel | pos <= |e.input| :: Lossless(e, p, pos, fuel)) <==> EmptyMatchesSkipped(e)
  {
    if EmptyMatchesSkipped(e) {
      forall p, pos: nat, fuel | pos <= |e.input| ensures Lossless(e, p, pos, fuel) {
        LosslessParse(e, p, pos, fuel);
      }
    } else {
      var regex, pos: nat :| pos <= |e.input| && !EmptyMatchSkipped(e, regex, pos);
      var r := Parse(e, Pattern(regex), pos, 0);
      assert r.Parsed? && Leaves(r.forest) == [];
      assert !Lossless(e, Pattern(regex), pos, 0);
    }
  }

  /** The condition holds when every empty match is found right at the position, which anchored patterns
      give and the SQL grammar's one pattern with an unanchored alternative, that of
      interval_literal, gives too, since it matches no empty text. A leaf of that pattern may begin
      with text that the pattern itself has skipped: leaves run from the position, not from the
      start of the match. */
  lemma EmptyAtStartIsLossless(e: Env)
    requires e.Valid()
    requires forall regex, s :: var m := e.lex.find(regex, s); m.Match? && m.start == m.end ==> m.start == 0
    ensures EmptyMatchesSkipped(e)
  {
    forall regex, pos: nat | pos <= |e.input| ensures EmptyMatchSkipped(e, regex, pos) {
      SkipOnce(e, pos);
    }
  }

  /** Text that an unanchored pattern passes over is inside the leaf, so it is not lost. */
  lemma UnanchoredLeaf(e: Env, regex: string, pos: nat)
    requires e.Valid() && pos <= |e.input| && e.lex.find(regex, e.input[pos..]).Match?
    requires var m := e.lex.find(regex, e.input[pos..]); m.start < m.end
    ensures var m := e.lex.find(regex, e.input[pos..]);
            var leaves := Leaves(Parse(e, Pattern(regex), pos, 0).forest);
            && |leaves| == 1 && leaves[0].PatternLeaf? && leaves[0].end == pos + m.end
            && leaves[0].end - leaves[0].start == (m.end - m.start) + m.start
            && (leaves[0].start == pos + m.start <==> m.start == 0)
  {
    var m := e.lex.find(regex, e.input[pos..]);
    var leaf := PatternLeaf(pos, pos + m.end);
    assert [leaf][1..] == [];
    assert Leaves([leaf]) == [leaf];
  }

  /** What tiling means for positions: the leaves are in bounds, non-empty, in order and disjoint. */
  lemma {:induction false} TilesInOrder(e: Env, leaves: seq<Tree>, pos: nat, end: nat, i: nat, j: nat)
    requires e.Valid() && pos <= |e.input| && Tiles(e, leaves, pos, end) && i < j < |leaves|
    ensures !leaves[i].Node? && !leaves[j].Node?
    ensures pos <= leaves[i].start < leaves[i].end <= leaves[j].start < leaves[j].end <= end
    decreases |leaves|
  {
    if i > 0 {
      SkipsForward(e, pos, leaves[0].start);
      TilesInOrder(e, leaves[1..], Skip(e, leaves[0].end), end, i - 1, j - 1);
    } else {
      SkipsForward(e, pos, leaves[0].start);
      TilesAfter(e, leaves[1..], Skip(e, leaves[0].end), end, j - 1);
    }
  }

  lemma {:induction false} TilesAfter(e: Env, leaves: seq<Tree>, pos: nat, end: nat, j: nat)
    requires e.Valid() && pos <= |e.input| && Tiles(e, leaves, pos, end) && j < |leaves|
    ensures !leaves[j].Node? && pos <= leaves[j].start < leaves[j].end <= end
    decreases |leaves|
  {
    SkipsForward(e, pos, leaves[0].start);
    if j > 0 {
      TilesAfter(e, leaves[1..], Skip(e, leaves[0].end), end, j - 1);
    } else {
      TilesForward(e, leaves[1..], Skip(e, leaves[0].end), end);
    }
  }

  lemma {:induction false} TilesForward(e: Env, leaves: seq<Tree>, pos: nat, end: nat)
    requires e.Valid() && pos <= |e.input| && Tiles(e, leaves, pos, end)
    ensures pos <= end
    decreases |leaves|
  {
    if leaves == [] {
      SkipsForward(e, pos, end);
    } else {
      SkipsForward(e, pos, leaves[0].start);
      TilesForward(e, leaves[1..], Skip(e, leaves[0].end), end);
    }
  }
}
