/** The stack machine that rebuilds the syntax tree on the Lisp side: the events of a successful parse
    are replayed backwards through four callbacks over a stack of frames. */
module CstReplay {
  import opened Peg
  import opened PegTrace
  import opened PegEngine
  import opened ParseErrors

  /** A cons of a label, a literal's keyword or the matched text with what belongs to it. */
  datatype Cst = Branch(rule: nat, kids: seq<Cst>) | Keyword(literal: string, start: nat) | Text(text: string,
      start: nat)

  /** What the tree of a parse looks like from outside: hidden nodes are spliced into their parents. */
  function Visible(input: string, ts: seq<Tree>): seq<Cst>
    decreases ts
  {
    if ts == [] then [] else
    (match ts[0]
     case Node(rule, _, hidden, kids) =>
       if hidden then Visible(input, kids) else [Branch(rule, Visible(input, kids))]
     case LiteralLeaf(literal, start, _) => [Keyword(literal, start)]
     case PatternLeaf(start, end) => [Text(Slice(input, start, end), start)])
    + Visible(input, ts[1..])
  }

  function Slice(input: string, start: nat, end: nat): string {
    if start <= end <= |input| then input[start..end] else ""
  }

  /** The stack, top frame first; a callback that finds too few frames breaks it. */
  datatype Stack = Broken | Frames(frames: seq<seq<Cst>>)

  function Push(s: Stack, c: Cst): Stack {
    if s.Broken? || s.frames == [] then Broken else Frames([[c] + s.frames[0]] + s.frames[1..])
  }

  function Callback(input: string, s: Stack, event: Event): Stack {
    match event
    case OpenEvent(rule, _, false) =>
      if s.Broken? || s.frames == [] then Broken else Push(Frames(s.frames[1..]), Branch(rule, s.frames[0]))
    case CloseEvent(_, false) => if s.Broken? then Broken else Frames([[]] + s.frames)
    case LiteralEvent(literal, start, _) => Push(s, Keyword(literal, start))
    case PatternEvent(start, end) => Push(s, Text(Slice(input, start, end), start))
    case _ => s
  }

  /** All events, the last one first. */
  function Replayed(input: string, events: seq<Event>, s: Stack): Stack
    decreases |events|
  {
    if events == [] then s else
    Replayed(input, events[..|events| - 1], Callback(input, s, events[|events| - 1]))
  }

  lemma {:induction false} ReplayedAppend(input: string, a: seq<Event>, b: seq<Event>, s: Stack)
    ensures Replayed(input, a + b, s) == Replayed(input, a, Replayed(input, b, s))
    decreases |b|
  {
    if b == [] {
      assert a + b == a;
    } else {
      assert (a + b)[..|a + b| - 1] == a + b[..|b| - 1];
      ReplayedAppend(input, a, b[..|b| - 1], Callback(input, s, b[|b| - 1]));
    }
  }

  lemma ReplayedOne(input: string, event: Event, s: Stack)
    ensures Replayed(input, [event], s) == Callback(input, s, event)
  {
    assert [event][..0] == [];
  }

  /** Main result: replaying the events of a forest puts exactly its visible trees in front of the top
      frame and leaves every other frame alone. */
  lemma {:induction false} ReplayRebuilds(input: string, ts: seq<Tree>, base: nat, top: seq<Cst>, below: seq<seq<Cst>>)
    ensures Replayed(input, Flatten(ts, base), Frames([top] + below)) == Frames([Visible(input, ts) + top] + below)
    decreases ts, 1
  {
    hide Replayed, FlattenTree;
    if ts == [] {
      assert Replayed(input, [], Frames([top] + below)) == Frames([top] + below) by { NoEvents(input,
          Frames([top] + below)); }
      assert [] + top == top;
    } else {
      var first := FlattenTree(ts[0], base);
      var rest := Flatten(ts[1..], base + |first|);
      var after := Visible(input, ts[1..]) + top;
      ReplayedAppend(input, first, rest, Frames([top] + below));
      ReplayRebuilds(input, ts[1..], base + |first|, top, below);
      TreeRebuilds(input, ts[0], base, after, below);
      assert VisibleTree(input, ts[0]) + after == Visible(input, ts) + top;
    }
  }

  lemma NoEvents(input: string, s: Stack)
    ensures Replayed(input, [], s) == s
  {
  }

  function VisibleTree(input: string, t: Tree): seq<Cst> {
    match t
    case Node(rule, _, hidden, kids) =>
      if hidden then Visible(input, kids) else [Branch(rule, Visible(input, kids))]
    case LiteralLeaf(literal, start, _) => [Keyword(literal, start)]
    case PatternLeaf(start, end) => [Text(Slice(input, start, end), start)]
  }

  lemma {:induction false} TreeRebuilds(input: string, t: Tree, base: nat, top: seq<Cst>, below: seq<seq<Cst>>)
    ensures Replayed(input, FlattenTree(t, base), Frames([top] + below)) == Frames([VisibleTree(input,
        t) + top] + below)
    decreases t, 0
  {
    hide Replayed, Flatten, Visible;
    match t {
      case Node(rule, pos, hidden, kids) =>
        var open, close := OpenEvent(rule, pos, hidden), CloseEvent(base, hidden);
        var inner := Flatten(kids, base + 1);
        var s := Frames([top] + below);
        ReplayedAppend(input, [open] + inner, [close], s);
        ReplayedOne(input, close, s);
        ReplayedAppend(input, [open], inner, Callback(input, s, close));
        if hidden {
          ReplayRebuilds(input, kids, base + 1, top, below);
          ReplayedOne(input, open, Frames([Visible(input, kids) + top] + below));
        } else {
          ReplayRebuilds(input, kids, base + 1, [], [top] + below);
          assert Visible(input, kids) + [] == Visible(input, kids);
          OpenPops(input, rule, pos, Visible(input, kids), top, below);
        }
      case LiteralLeaf(literal, start, end) =>
        ReplayedOne(input, LiteralEvent(literal, start, end), Frames([top] + below));
      case PatternLeaf(start, end) =>
        ReplayedOne(input, PatternEvent(start, end), Frames([top] + below));
    }
  }

  lemma OpenPops(input: string, rule: nat, pos: nat, node: seq<Cst>, top: seq<Cst>, below: seq<seq<Cst>>)
    ensures Replayed(input, [OpenEvent(rule, pos, false)], Frames([node] + ([top] + below)))
            == Frames([[Branch(rule, node)] + top] + below)
  {
    ReplayedOne(input, OpenEvent(rule, pos, false), Frames([node] + ([top] + below)));
    assert ([node] + ([top] + below))[1..] == [top] + below;
  }

  // ---------- the texts of the tree ----------

  /** Every text in the tree is the input where the tree says it is, every keyword is there in some case,
      and none is empty. */
  predicate Faithful(input: string, cs: seq<Cst>)
    decreases cs
  {
    if cs == [] then true else
    (match cs[0]
     case Branch(_, kids) => Faithful(input, kids)
     case Keyword(literal, start) =>
       && literal != "" && start + |literal| <= |input|
       && EqIgnoreCase(input[start..start + |literal|], literal)
     case Text(text, start) => text != "" && start + |text| <= |input| && input[start..start + |text|] == text)
    && Faithful(input, cs[1..])
  }

  /** The leaves of a forest are where they say. */
  predicate LeavesOk(input: string, ts: seq<Tree>)
    decreases ts
  {
    if ts == [] then true else
    (match ts[0]
     case Node(_, _, _, kids) => LeavesOk(input, kids)
     case LiteralLeaf(literal, start, end) =>
       start < end <= |input| && EqIgnoreCase(input[start..end], literal)
     case PatternLeaf(start, end) => start < end <= |input|)
    && LeavesOk(input, ts[1..])
  }

  lemma {:induction false} LeavesOkAppend(input: string, a: seq<Tree>, b: seq<Tree>)
    requires LeavesOk(input, a) && LeavesOk(input, b)
    ensures LeavesOk(input, a + b)
    decreases |a|
  {
    if a == [] {
      assert a + b == b;
    } else {
      assert (a + b)[1..] == a[1..] + b;
      LeavesOkAppend(input, a[1..], b);
    }
  }

  lemma {:induction false} FaithfulAppend(input: string, a: seq<Cst>, b: seq<Cst>)
    requires Faithful(input, a) && Faithful(input, b)
    ensures Faithful(input, a + b)
    decreases |a|
  {
    if a == [] {
      assert a + b == b;
    } else {
      assert (a + b)[1..] == a[1..] + b;
      FaithfulAppend(input, a[1..], b);
    }
  }

  lemma {:induction false} VisibleIsFaithful(input: string, ts: seq<Tree>)
    requires LeavesOk(input, ts)
    ensures Faithful(input, Visible(input, ts))
    decreases ts
  {
    if ts != [] {
      var first := VisibleTree(input, ts[0]);
      match ts[0] {
        case Node(_, _, _, kids) => VisibleIsFaithful(input, kids);
        case LiteralLeaf(literal, start, end) =>
        case PatternLeaf(start, end) => assert Slice(input, start, end) == input[start..end];
      }
      assert |first| == 1 ==> first[1..] == [];
      assert Faithful(input, first);
      VisibleIsFaithful(input, ts[1..]);
      FaithfulAppend(input, first, Visible(input, ts[1..]));
    }
  }

  lemma {:induction false} ParsedLeavesOk(e: Env, p: Peg, pos: nat, fuel: nat)
    requires e.Valid() && pos <= |e.input|
    ensures var r := Parse(e, p, pos, fuel); r.Parsed? ==> LeavesOk(e.input, r.forest)
    decreases fuel, p, 0
  {
    match p {
      case Seq(ps) => ParsedSeqLeavesOk(e, ps, pos, fuel);
      case Ord(ps) => ParsedOrdLeavesOk(e, ps, pos, fuel);
      case NonTerminal(id) =>
        if fuel > 0 {
          ParsedLeavesOk(e, e.g(id).body, pos, fuel - 1);
          var r := Parse(e, p, pos, fuel);
          if r.Parsed? { assert r.forest[1..] == []; }
        }
      case Cut(q) => ParsedLeavesOk(e, q, pos, fuel);
      case Star(q) => ParsedStarLeavesOk(e, q, pos, fuel);
      case _ => LeafIsOk(e, p, pos, fuel);
    }
  }

  lemma LeafIsOk(e: Env, p: Peg, pos: nat, fuel: nat)
    requires e.Valid() && pos <= |e.input| && (p.Pattern? || p.Literal? || p.Neg?)
    ensures var r := Parse(e, p, pos, fuel); r.Parsed? ==> LeavesOk(e.input, r.forest)
  {
    var r := Parse(e, p, pos, fuel);
    if r.Parsed? && r.forest != [] { assert r.forest[1..] == []; }
  }

  lemma {:induction false} ParsedSeqLeavesOk(e: Env, ps: Pegs, pos: nat, fuel: nat)
    requires e.Valid() && pos <= |e.input|
    ensures var r := ParseSeq(e, ps, pos, fuel); r.Parsed? ==> LeavesOk(e.input, r.forest)
    decreases fuel, ps, 0
  {
    hide Parse, LeavesOk;
    NoLeaves(e.input);
    if ps.Then? {
      ParsedLeavesOk(e, ps.first, pos, fuel);
      var first := Parse(e, ps.first, pos, fuel);
      if first.Parsed? {
        ParsedSeqLeavesOk(e, ps.rest, first.pos, fuel);
        var rest := ParseSeq(e, ps.rest, first.pos, fuel);
        if rest.Parsed? { LeavesOkAppend(e.input, first.forest, rest.forest); }
      }
    }
  }

  lemma {:induction false} ParsedOrdLeavesOk(e: Env, ps: Pegs, pos: nat, fuel: nat)
    requires e.Valid() && pos <= |e.input|
    ensures var r := ParseOrd(e, ps, pos, fuel); r.Parsed? ==> LeavesOk(e.input, r.forest)
    decreases fuel, ps, 0
  {
    hide Parse, LeavesOk;
    if ps.Then? {
      ParsedLeavesOk(e, ps.first, pos, fuel);
      ParsedOrdLeavesOk(e, ps.rest, pos, fuel);
    }
  }

  lemma {:induction false} ParsedStarLeavesOk(e: Env, q: Peg, pos: nat, fuel: nat)
    requires e.Valid() && pos <= |e.input|
    ensures var r := ParseStar(e, q, pos, fuel); r.Parsed? ==> LeavesOk(e.input, r.forest)
    decreases fuel, q, 1
  {
    hide Parse, LeavesOk;
    NoLeaves(e.input);
    if fuel > 0 {
      ParsedLeavesOk(e, q, pos, fuel);
      var first := Parse(e, q, pos, fuel);
      if first.Parsed? {
        ParsedStarLeavesOk(e, q, first.pos, fuel - 1);
        var rest := ParseStar(e, q, first.pos, fuel - 1);
        if rest.Parsed? { LeavesOkAppend(e.input, first.forest, rest.forest); }
      }
    }
  }

  lemma NoLeaves(input: string)
    ensures LeavesOk(input, [])
  {
  }

  /** The tree of any parse says nothing but what the input has. */
  lemma TreeIsFaithful(e: Env, root: nat, fuel: nat)
    requires e.Valid()
    ensures var r := Parse(e, NonTerminal(root), 0, fuel);
            r.Parsed? ==> Faithful(e.input, Visible(e.input, r.forest))
  {
    ParsedLeavesOk(e, NonTerminal(root), 0, fuel);
    hide Parse;
    var r := Parse(e, NonTerminal(root), 0, fuel);
    if r.Parsed? { VisibleIsFaithful(e.input, r.forest); }
  }

  class ParseResult {
    var frames: seq<seq<Cst>>

    constructor ()
      ensures frames == [[]]
    {
      frames := [[]];
    }

    method OnOpen(rule: nat)
      requires |frames| >= 2
      modifies this
      ensures frames == [[Branch(rule, old(frames[0]))] + old(frames[1])] + old(frames[2..])
    {
      var node := frames[0];
      frames := frames[1..];
      PushFirst(Branch(rule, node));
    }

    method OnClose()
      modifies this
      ensures frames == [[]] + old(frames)
    {
      frames := [[]] + frames;
    }

    method PushFirst(c: Cst)
      requires frames != []
      modifies this
      ensures Frames(frames) == Push(Frames(old(frames)), c)
    {
      frames := [[c] + frames[0]] + frames[1..];
    }

    /** The loop over the events in reverse. */
    method Replay(input: string, events: seq<Event>)
      requires Replayed(input, events, Frames(frames)).Frames?
      modifies this
      ensures Frames(frames) == Replayed(input, events, Frames(old(frames)))
    {
      var i := |events|;
      assert events[..i] == events;
      while i > 0
        invariant 0 <= i <= |events|
        invariant Replayed(input, events[..i], Frames(frames)) == Replayed(input, events, Frames(old(frames)))
      {
        i := i - 1;
        assert events[..i + 1][..i] == events[..i];
        StaysBroken(input, events[..i]);
        match events[i]
        case OpenEvent(rule, pos, false) => OnOpen(rule);
        case CloseEvent(_, false) => OnClose();
        case LiteralEvent(literal, start, _) => PushFirst(Keyword(literal, start));
        case PatternEvent(start, end) => PushFirst(Text(Slice(input, start, end), start));
        case _ =>
      }
      assert events[..0] == [];
    }
  }

  lemma {:induction false} StaysBroken(input: string, events: seq<Event>)
    ensures Replayed(input, events, Broken) == Broken
    decreases |events|
  {
    if events != [] { StaysBroken(input, events[..|events| - 1]); }
  }

  datatype Parsing = Tree(cst: Cst) | Errors(errors: seq<ParseError>) | NoFuel

  /** The tree of the events of a parse. */
  method Rebuild(input: string, events: seq<Event>, ghost node: Tree) returns (cst: Cst)
    requires node.Node? && !node.hidden && events == Flatten([node], 0)
    ensures cst == Branch(node.rule, Visible(input, node.kids))
  {
    hide Flatten, Replayed;
    var replay := new ParseResult();
    var none: seq<seq<Cst>> := [];
    assert replay.frames == [[]] + none;
    ReplayRebuilds(input, [node], 0, [], none);
    replay.Replay(input, events);
    assert [node][1..] == [];
    assert Visible(input, [node]) + [] == [Branch(node.rule, Visible(input, node.kids))];
    cst := replay.frames[0][0];
  }

  /** The second parse, with the error log on. */
  method FindErrors(e: Env, root: nat, fuel: nat) returns (errors: seq<ParseError>)
    requires e.Valid() && MacroMade(e.g) && fuel > 0
    requires var r := Parse(e, NonTerminal(root), 0, fuel); r.Failed? || r.Aborted?
    ensures FurthestFailures(e, root, fuel, errors)
  {
    hide Parse, Residue, Traces, Rooted, HasError, ErrorsAt, FurthestStart, FurthestFailures, Erased, LogOf;
    var tracked := new ParseState(true);
    var out := tracked.RunRule(e, root, 0, fuel);
    assert tracked.errors[0..] == tracked.errors;
    ReportOfFailure(e, root, fuel, tracked.errors);
    errors := EventsToErrors(tracked.errors);
  }

  /** The whole way from text to tree: parse, and replay the events; or parse again with the error log
      on and report what failed furthest. */
  method ParseSqlCst(e: Env, root: nat, fuel: nat) returns (result: Parsing)
    requires e.Valid() && MacroMade(e.g) && fuel > 0 && !e.g(root).hidden
    ensures match Parse(e, NonTerminal(root), 0, fuel)
            case Parsed(_, forest) =>
              && |forest| == 1 && forest[0].Node? && result == Tree(Branch(root, Visible(e.input, forest[0].kids)))
              && Faithful(e.input, [result.cst])
            case Diverged => result == NoFuel
            case _ => result.Errors? && FurthestFailures(e, root, fuel, result.errors)
  {
    hide Residue, Traces, FurthestFailures, Faithful, Flatten, Logs;
    CallUnfolds(e, root, 0, fuel);
    var state := new ParseState(false);
    var out := state.RunRule(e, root, 0, fuel);
    match out
    case Ok(_) =>
      ghost var forest := Parse(e, NonTerminal(root), 0, fuel).forest;
      assert state.events == Flatten(forest, 0);
      assert forest == [forest[0]];
      TreeIsFaithful(e, root, fuel);
      OneVisible(e.input, forest[0]);
      var cst := Rebuild(e.input, state.events, forest[0]);
      result := Tree(cst);
    case OutOfFuel => result := NoFuel;
    case _ =>
      var errors := FindErrors(e, root, fuel);
      result := Errors(errors);
  }

  lemma OneVisible(input: string, node: Tree)
    requires node.Node? && !node.hidden
    ensures Visible(input, [node]) == [Branch(node.rule, Visible(input, node.kids))]
  {
    assert [node][1..] == [];
    assert Visible(input, []) == [];
  }
}
