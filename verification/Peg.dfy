/** The grammar language of the peg! macro and a tree-valued meaning for it: what a parser returns,
    without the event buffer that the generated code shares, truncates and patches. */
module Peg {

  /** Look, Plus and Opt are expanded by the macro; see below. */
  datatype Pegs = Done | Then(first: Peg, rest: Pegs)

  datatype Peg =
    | Seq(parsers: Pegs)
    | Ord(parsers: Pegs)
    | Pattern(regex: string)
    | Literal(literal: string)
    | NonTerminal(id: nat)
    | Neg(parser: Peg)
    | Cut(parser: Peg)
    | Star(parser: Peg)

  function Look(p: Peg): Peg { Neg(Neg(p)) }

  function Plus(p: Peg): Peg { Seq(Then(p, Then(Star(p), Done))) }

  function Opt(p: Peg): Peg { Ord(Then(p, Then(Literal(""), Done))) }

  datatype Rule = Rule(hidden: bool, body: Peg)

  /** Rules are numbered. */
  type Grammar = nat -> Rule

  datatype Match = NoMatch | Match(start: nat, end: nat)

  /** The regular expressions, the whitespace skipper and the alphanumeric test of the next
      character are parameters; all of them look at the rest of the input. */
  datatype Lexer = Lexer(find: (string, string) -> Match, skip: string -> nat, alnum: string -> bool) {
    ghost predicate Valid() {
      && (forall r, s :: find(r, s).Match? ==> find(r, s).start <= find(r, s).end <= |s|)
      && (forall s :: skip(s) <= |s|)
    }
  }

  /** The input is the UTF-8 text, one char per byte. */
  datatype Env = Env(g: Grammar, lex: Lexer, input: string) {
    ghost predicate Valid() { lex.Valid() }
  }

  datatype Tree =
    | Node(rule: nat, pos: nat, hidden: bool, kids: seq<Tree>)
    | LiteralLeaf(literal: string, start: nat, end: nat)
    | PatternLeaf(start: nat, end: nat)

  /** Diverged: the fuel, which bounds rule calls and repetitions, ran out. */
  datatype Result = Parsed(pos: nat, forest: seq<Tree>) | Failed | Aborted | Diverged

  // ---------- terminals ----------

  function Skip(e: Env, pos: nat): (end: nat)
    requires e.Valid() && pos <= |e.input|
    ensures pos <= end <= |e.input|
  {
    pos + e.lex.skip(e.input[pos..])
  }

  function ToLower(c: char): char {
    if 'A' <= c <= 'Z' then c + 32 as char else c
  }

  predicate EqIgnoreCase(s: string, t: string) {
    |s| == |t| && forall i | 0 <= i < |s| :: ToLower(s[i]) == ToLower(t[i])
  }

  predicate IsCharBoundary(input: string, i: nat)
    requires i <= |input|
  {
    i == 0 || i == |input| || !('\U{80}' <= input[i] <= '\U{bf}')
  }

  predicate AsciiPunctuation(c: char) {
    '!' <= c <= '/' || ':' <= c <= '@' || '[' <= c <= '`' || '{' <= c <= '~'
  }

  predicate Punctuation(literal: string) {
    forall c | c in literal :: AsciiPunctuation(c)
  }

  function LiteralEnd(e: Env, literal: string, pos: nat): nat {
    if pos + |literal| <= |e.input| then pos + |literal| else |e.input|
  }

  predicate LiteralMatches(e: Env, literal: string, pos: nat)
    requires pos <= |e.input|
  {
    var end := LiteralEnd(e, literal, pos);
    && IsCharBoundary(e.input, end)
    && EqIgnoreCase(e.input[pos..end], literal)
    && (Punctuation(literal) || end == |e.input| || !e.lex.alnum(e.input[end..]))
  }

  /** d is c in the other case. */
  predicate OtherCase(c: char, d: char) {
    ('A' <= c <= 'Z' && d as int == c as int + 32) || ('A' <= d <= 'Z' && c as int == d as int + 32)
  }

  /** What a literal matches: its text in any mixture of cases, inside the input, ending between two
      characters, and, unless the literal is all punctuation, at the end of a word. */
  lemma LiteralMatchesIff(e: Env, literal: string, pos: nat)
    requires pos <= |e.input|
    ensures var end := pos + |literal|;
            LiteralMatches(e, literal, pos) <==>
              && end <= |e.input|
              && (forall i | 0 <= i < |literal| ::
                    e.input[pos + i] == literal[i] || OtherCase(e.input[pos + i], literal[i]))
              && IsCharBoundary(e.input, end)
              && (Punctuation(literal) || end == |e.input| || !e.lex.alnum(e.input[end..]))
  {
    var end := LiteralEnd(e, literal, pos);
    var text := e.input[pos..end];
    if |text| == |literal| {
      forall i | 0 <= i < |literal|
        ensures ToLower(text[i]) == ToLower(literal[i]) <==> text[i] == literal[i] || OtherCase(text[i], literal[i])
      {
        SameLetter(text[i], literal[i]);
      }
      assert forall i | 0 <= i < |literal| :: text[i] == e.input[pos + i];
    }
  }

  lemma SameLetter(c: char, d: char)
    ensures ToLower(c) == ToLower(d) <==> c == d || OtherCase(c, d)
  {
  }

  // ---------- meaning ----------

  ghost function Parse(e: Env, p: Peg, pos: nat, fuel: nat): (r: Result)
    requires e.Valid() && pos <= |e.input|
    ensures r.Parsed? ==> pos <= r.pos <= |e.input|
    decreases fuel, p, 0
  {
    match p
    case Seq(ps) => ParseSeq(e, ps, pos, fuel)
    case Ord(ps) => ParseOrd(e, ps, pos, fuel)
    case Pattern(regex) =>
      (match e.lex.find(regex, e.input[pos..])
       case NoMatch => Failed
       case Match(start, end) =>
         Parsed(Skip(e, pos + end), if start < end then [PatternLeaf(pos, pos + end)] else []))
    case Literal(literal) =>
      if LiteralMatches(e, literal, pos) then
        var end := LiteralEnd(e, literal, pos);
        Parsed(Skip(e, end), if pos < end then [LiteralLeaf(literal, pos, end)] else [])
      else Failed
    case NonTerminal(id) =>
      if fuel == 0 then Diverged else
      (match Parse(e, e.g(id).body, pos, fuel - 1)
       case Parsed(pos', kids) => Parsed(pos', [Node(id, pos, e.g(id).hidden && IsOneNode(kids), kids)])
       case other => other)
    case Neg(q) =>
      (match Parse(e, q, pos, fuel)
       case Parsed(_, _) => Failed
       case Diverged => Diverged
       case _ => Parsed(pos, []))
    case Cut(q) =>
      (match Parse(e, q, pos, fuel)
       case Failed => Aborted
       case other => other)
    case Star(q) => ParseStar(e, q, pos, fuel)
  }

  /** A hidden rule collapses exactly when its body is a single rule node. */
  predicate IsOneNode(kids: seq<Tree>) {
    |kids| == 1 && kids[0].Node?
  }

  function Prepend(forest: seq<Tree>, r: Result): (r': Result)
    ensures r'.Parsed? == r.Parsed? && (r.Parsed? ==> r'.pos == r.pos)
  {
    if r.Parsed? then Parsed(r.pos, forest + r.forest) else r
  }

  ghost function ParseSeq(e: Env, ps: Pegs, pos: nat, fuel: nat): (r: Result)
    requires e.Valid() && pos <= |e.input|
    ensures r.Parsed? ==> pos <= r.pos <= |e.input|
    decreases fuel, ps, 0
  {
    if ps.Done? then Parsed(pos, []) else
    var first := Parse(e, ps.first, pos, fuel);
    if first.Parsed? then Prepend(first.forest, ParseSeq(e, ps.rest, first.pos, fuel)) else first
  }

  ghost function ParseOrd(e: Env, ps: Pegs, pos: nat, fuel: nat): (r: Result)
    requires e.Valid() && pos <= |e.input|
    ensures r.Parsed? ==> pos <= r.pos <= |e.input|
    decreases fuel, ps, 0
  {
    if ps.Done? then Failed else
    var first := Parse(e, ps.first, pos, fuel);
    if first.Failed? then ParseOrd(e, ps.rest, pos, fuel) else first
  }

  ghost function ParseStar(e: Env, p: Peg, pos: nat, fuel: nat): (r: Result)
    requires e.Valid() && pos <= |e.input|
    ensures r.Parsed? ==> pos <= r.pos <= |e.input|
    decreases fuel, p, 1
  {
    if fuel == 0 then Diverged else
    match Parse(e, p, pos, fuel)
    case Parsed(pos', forest) => Prepend(forest, ParseStar(e, p, pos', fuel - 1))
    case Failed => Parsed(pos, [])
    case other => other
  }

  // ---------- fuel does not matter once it suffices ----------

  lemma {:induction false} MoreFuel(e: Env, p: Peg, pos: nat, fuel: nat, more: nat)
    requires e.Valid() && pos <= |e.input| && fuel <= more
    requires !Parse(e, p, pos, fuel).Diverged?
    ensures Parse(e, p, pos, more) == Parse(e, p, pos, fuel)
    decreases fuel, p, 0
  {
    match p {
      case Seq(ps) => MoreFuelSeq(e, ps, pos, fuel, more);
      case Ord(ps) => MoreFuelOrd(e, ps, pos, fuel, more);
      case Pattern(_) =>
      case Literal(_) =>
      case NonTerminal(id) => MoreFuel(e, e.g(id).body, pos, fuel - 1, more - 1);
      case Neg(q) => MoreFuel(e, q, pos, fuel, more);
      case Cut(q) => MoreFuel(e, q, pos, fuel, more);
      case Star(q) => MoreFuelStar(e, q, pos, fuel, more);
    }
  }

  lemma {:induction false} MoreFuelSeq(e: Env, ps: Pegs, pos: nat, fuel: nat, more: nat)
    requires e.Valid() && pos <= |e.input| && fuel <= more
    requires !ParseSeq(e, ps, pos, fuel).Diverged?
    ensures ParseSeq(e, ps, pos, more) == ParseSeq(e, ps, pos, fuel)
    decreases fuel, ps, 0
  {
    if ps.Then? {
      MoreFuel(e, ps.first, pos, fuel, more);
      var first := Parse(e, ps.first, pos, fuel);
      if first.Parsed? { MoreFuelSeq(e, ps.rest, first.pos, fuel, more); }
    }
  }

  lemma {:induction false} MoreFuelOrd(e: Env, ps: Pegs, pos: nat, fuel: nat, more: nat)
    requires e.Valid() && pos <= |e.input| && fuel <= more
    requires !ParseOrd(e, ps, pos, fuel).Diverged?
    ensures ParseOrd(e, ps, pos, more) == ParseOrd(e, ps, pos, fuel)
    decreases fuel, ps, 0
  {
    if ps.Then? {
      MoreFuel(e, ps.first, pos, fuel, more);
      if Parse(e, ps.first, pos, fuel).Failed? { MoreFuelOrd(e, ps.rest, pos, fuel, more); }
    }
  }

  lemma {:induction false} MoreFuelStar(e: Env, p: Peg, pos: nat, fuel: nat, more: nat)
    requires e.Valid() && pos <= |e.input| && fuel <= more
    requires !ParseStar(e, p, pos, fuel).Diverged?
    ensures ParseStar(e, p, pos, more) == ParseStar(e, p, pos, fuel)
    decreases fuel, p, 1
  {
    MoreFuel(e, p, pos, fuel, more);
    var first := Parse(e, p, pos, fuel);
    if first.Parsed? { MoreFuelStar(e, p, first.pos, fuel - 1, more - 1); }
  }

  // ---------- what the macro's abbreviations mean ----------

  /** & looks ahead: it consumes nothing and yields nothing. */
  lemma LookMeans(e: Env, p: Peg, pos: nat, fuel: nat)
    requires e.Valid() && pos <= |e.input| && !Parse(e, p, pos, fuel).Diverged?
    ensures Parse(e, Look(p), pos, fuel) == if Parse(e, p, pos, fuel).Parsed? then Parsed(pos, []) else Failed
  {
  }

  /** ? never fails at the start of a character; when its expression does, whitespace is skipped. */
  lemma OptMeans(e: Env, p: Peg, pos: nat, fuel: nat)
    requires e.Valid() && pos <= |e.input| && IsCharBoundary(e.input, pos)
    ensures Parse(e, Opt(p), pos, fuel)
            == if Parse(e, p, pos, fuel).Failed? then Parsed(Skip(e, pos), []) else Parse(e, p, pos, fuel)
  {
    var empty := Then(Literal(""), Done);
    assert LiteralMatches(e, "", pos);
    assert ParseOrd(e, empty, pos, fuel) == Parse(e, Literal(""), pos, fuel);
    assert Opt(p) == Ord(Then(p, empty));
  }

  /** + is * with at least one. */
  lemma PlusMeans(e: Env, p: Peg, pos: nat, fuel: nat)
    requires e.Valid() && pos <= |e.input| && !Parse(e, Star(p), pos, fuel).Diverged?
    ensures Parse(e, Plus(p), pos, fuel)
            == if Parse(e, p, pos, fuel).Failed? then Failed else Parse(e, Star(p), pos, fuel)
  {
    var first := Parse(e, p, pos, fuel);
    var more := Then(Star(p), Done);
    assert Plus(p) == Seq(Then(p, more));
    if first.Parsed? {
      MoreFuelStar(e, p, first.pos, fuel - 1, fuel);
      var rest := ParseStar(e, p, first.pos, fuel);
      assert Parse(e, Star(p), first.pos, fuel) == rest;
      if rest.Parsed? {
        assert ParseSeq(e, Done, rest.pos, fuel) == Parsed(rest.pos, []);
        assert rest.forest + [] == rest.forest;
      }
      assert ParseSeq(e, more, first.pos, fuel) == rest;
    }
  }
}
