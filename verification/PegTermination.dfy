/** Parsing terminates when no rule can reach itself without advancing and no starred body can
    succeed without advancing. */
module PegTermination {
  import opened Peg

  /** An over-approximation of which rules and patterns may succeed without advancing, and a rank
      for the rules that goes down at every call made before any input is consumed. */
  datatype Ranking = Ranking(rank: nat -> nat, nullableRule: nat -> bool, nullablePattern: string -> bool, bound: nat)

  predicate Nullable(k: Ranking, p: Peg)
  {
    match p
    case Seq(ps) => AllNullable(k, ps)
    case Ord(ps) => SomeNullable(k, ps)
    case Pattern(regex) => k.nullablePattern(regex)
    case Literal(literal) => literal == ""
    case NonTerminal(id) => k.nullableRule(id)
    case Neg(_) => true
    case Cut(q) => Nullable(k, q)
    case Star(_) => true
  }

  predicate AllNullable(k: Ranking, ps: Pegs) {
    ps.Then? ==> Nullable(k, ps.first) && AllNullable(k, ps.rest)
  }

  predicate SomeNullable(k: Ranking, ps: Pegs) {
    ps.Then? && (Nullable(k, ps.first) || SomeNullable(k, ps.rest))
  }

  /** Every rule that p may call before it has advanced has a rank below r. */
  predicate LeftBelow(k: Ranking, p: Peg, r: nat)
  {
    match p
    case Seq(ps) => LeftOfSeq(k, ps, r)
    case Ord(ps) => LeftOfAll(k, ps, r)
    case Pattern(_) => true
    case Literal(_) => true
    case NonTerminal(id) => k.rank(id) < r
    case Neg(q) => LeftBelow(k, q, r)
    case Cut(q) => LeftBelow(k, q, r)
    case Star(q) => LeftBelow(k, q, r)
  }

  predicate LeftOfSeq(k: Ranking, ps: Pegs, r: nat) {
    ps.Then? ==> LeftBelow(k, ps.first, r) && (Nullable(k, ps.first) ==> LeftOfSeq(k, ps.rest, r))
  }

  predicate LeftOfAll(k: Ranking, ps: Pegs, r: nat) {
    ps.Then? ==> LeftBelow(k, ps.first, r) && LeftOfAll(k, ps.rest, r)
  }

  /** No starred body anywhere in p can succeed without advancing. */
  predicate StarsAdvance(k: Ranking, p: Peg)
  {
    match p
    case Seq(ps) => AllStarsAdvance(k, ps)
    case Ord(ps) => AllStarsAdvance(k, ps)
    case Pattern(_) => true
    case Literal(_) => true
    case NonTerminal(_) => true
    case Neg(q) => StarsAdvance(k, q)
    case Cut(q) => StarsAdvance(k, q)
    case Star(q) => StarsAdvance(k, q) && !Nullable(k, q)
  }

  predicate AllStarsAdvance(k: Ranking, ps: Pegs) {
    ps.Then? ==> StarsAdvance(k, ps.first) && AllStarsAdvance(k, ps.rest)
  }

  predicate RuleOk(k: Ranking, id: nat, body: Peg) {
    && k.rank(id) < k.bound
    && LeftBelow(k, body, k.rank(id))
    && StarsAdvance(k, body)
    && (Nullable(k, body) ==> k.nullableRule(id))
  }

  ghost predicate GrammarOk(k: Ranking, g: Grammar) {
    forall id :: RuleOk(k, id, g(id).body)
  }

  /** Patterns not declared nullable only match non-empty text. */
  ghost predicate PatternsOk(k: Ranking, lex: Lexer) {
    forall r, s :: !k.nullablePattern(r) && lex.find(r, s).Match? ==> lex.find(r, s).end > 0
  }

  ghost predicate Ok(k: Ranking, e: Env) {
    e.Valid() && GrammarOk(k, e.g) && PatternsOk(k, e.lex)
  }

  /** Enough fuel to parse the last `rest` bytes with calls of rank below r. */
  function Enough(k: Ranking, rest: nat, r: nat): nat {
    rest * (k.bound + 2) + r + 1
  }

  lemma EnoughDrops(k: Ranking, rest: nat, rest': nat, r: nat)
    requires rest' < rest
    ensures Enough(k, rest', k.bound) + 1 <= Enough(k, rest, r)
  {
    TimesDrops(rest', rest, k.bound + 2);
  }

  lemma {:induction false} TimesDrops(small: nat, big: nat, b: nat)
    requires small < big
    ensures small * b + b <= big * b
  {
    assert big * b == (big - 1) * b + b;
    if small < big - 1 { TimesDrops(small, big - 1, b); }
  }

  lemma EnoughBelow(k: Ranking, rest: nat, r: nat, r': nat)
    requires r < r'
    ensures 1 <= Enough(k, rest, r) && Enough(k, rest, r) + 1 <= Enough(k, rest, r')
  {
    EnoughPositive(k, rest, r);
  }

  lemma EnoughPositive(k: Ranking, rest: nat, r: nat)
    ensures 1 <= Enough(k, rest, r)
  {
    assert rest * (k.bound + 2) >= 0;
  }

  lemma StarFacts(k: Ranking, q: Peg)
    requires StarsAdvance(k, Star(q))
    ensures StarsAdvance(k, q) && !Nullable(k, q)
  {
  }

  ghost predicate Advances(k: Ranking, p: Peg, pos: nat, r: Result) {
    !r.Diverged? && (r.Parsed? && r.pos == pos ==> Nullable(k, p))
  }

  lemma {:induction false} AllBelowBound(k: Ranking, g: Grammar, p: Peg)
    requires GrammarOk(k, g)
    ensures LeftBelow(k, p, k.bound)
  {
    match p {
      case Seq(ps) => AllBelowBoundList(k, g, ps);
      case Ord(ps) => AllBelowBoundList(k, g, ps);
      case Pattern(_) =>
      case Literal(_) =>
      case NonTerminal(id) => assert RuleOk(k, id, g(id).body);
      case Neg(q) => AllBelowBound(k, g, q);
      case Cut(q) => AllBelowBound(k, g, q);
      case Star(q) => AllBelowBound(k, g, q);
    }
  }

  lemma {:induction false} AllBelowBoundList(k: Ranking, g: Grammar, ps: Pegs)
    requires GrammarOk(k, g)
    ensures LeftOfSeq(k, ps, k.bound) && LeftOfAll(k, ps, k.bound)
  {
    if ps.Then? {
      AllBelowBound(k, g, ps.first);
      AllBelowBoundList(k, g, ps.rest);
    }
  }

  lemma BelowBound(k: Ranking, e: Env, p: Peg)
    requires Ok(k, e)
    ensures LeftBelow(k, p, k.bound)
  {
    AllBelowBound(k, e.g, p);
  }

  lemma {:induction false} Terminates(k: Ranking, e: Env, p: Peg, pos: nat, fuel: nat, r: nat)
    requires Ok(k, e) && e.Valid() && pos <= |e.input| && r <= k.bound
    requires LeftBelow(k, p, r) && StarsAdvance(k, p)
    requires Enough(k, |e.input| - pos, r) <= fuel
    ensures Advances(k, p, pos, Parse(e, p, pos, fuel))
    decreases fuel, p, 1
  {
    hide Ok, Enough;
    match p {
      case Seq(ps) => TerminatesSeq(k, e, ps, pos, pos, fuel, r);
      case Ord(ps) => TerminatesOrd(k, e, ps, pos, fuel, r);
      case Pattern(_) => TerminalAdvances(k, e, p, pos, fuel);
      case Literal(_) => TerminalAdvances(k, e, p, pos, fuel);
      case NonTerminal(id) => TerminatesRule(k, e, id, pos, fuel, r);
      case Neg(q) => Terminates(k, e, q, pos, fuel, r);
      case Cut(q) => Terminates(k, e, q, pos, fuel, r);
      case Star(q) => TerminatesStar(k, e, q, pos, fuel, r);
    }
  }

  lemma TerminalAdvances(k: Ranking, e: Env, p: Peg, pos: nat, fuel: nat)
    requires Ok(k, e) && e.Valid() && pos <= |e.input| && (p.Pattern? || p.Literal?)
    ensures Advances(k, p, pos, Parse(e, p, pos, fuel))
  {
    if p.Literal? && LiteralMatches(e, p.literal, pos) {
      assert LiteralEnd(e, p.literal, pos) == pos + |p.literal|;
    }
  }

  lemma {:induction false} TerminatesRule(k: Ranking, e: Env, id: nat, pos: nat, fuel: nat, r: nat)
    requires Ok(k, e) && e.Valid() && pos <= |e.input| && k.rank(id) < r <= k.bound
    requires Enough(k, |e.input| - pos, r) <= fuel
    ensures Advances(k, NonTerminal(id), pos, Parse(e, NonTerminal(id), pos, fuel))
    decreases fuel, NonTerminal(id), 0
  {
    hide Ok, LeftBelow, StarsAdvance, Enough, Nullable;
    var body := e.g(id).body;
    RuleFacts(k, e, id);
    EnoughBelow(k, |e.input| - pos, k.rank(id), r);
    Terminates(k, e, body, pos, fuel - 1, k.rank(id));
    var r' := Parse(e, body, pos, fuel - 1);
    assert Parse(e, NonTerminal(id), pos, fuel)
           == match r' case Parsed(pos', kids) => Parsed(pos', [Node(id, pos, e.g(id).hidden && IsOneNode(kids),
               kids)]) case other => other;
    CallNullable(k, id);
  }

  lemma RuleFacts(k: Ranking, e: Env, id: nat)
    requires Ok(k, e)
    ensures LeftBelow(k, e.g(id).body, k.rank(id)) && StarsAdvance(k, e.g(id).body)
    ensures Nullable(k, e.g(id).body) ==> k.nullableRule(id)
  {
    assert RuleOk(k, id, e.g(id).body);
  }

  lemma CallNullable(k: Ranking, id: nat)
    ensures Nullable(k, NonTerminal(id)) == k.nullableRule(id)
  {
  }

  /** The rest of a sequence that began at `start`: once it has advanced, any call is allowed. */
  lemma {:induction false} TerminatesSeq(k: Ranking, e: Env, ps: Pegs, start: nat, pos: nat, fuel: nat, r: nat)
    requires Ok(k, e) && e.Valid() && start <= pos <= |e.input| && r <= k.bound
    requires AllStarsAdvance(k, ps) && (pos == start ==> LeftOfSeq(k, ps, r))
    requires Enough(k, |e.input| - start, r) <= fuel
    ensures var res := ParseSeq(e, ps, pos, fuel);
            !res.Diverged? && (res.Parsed? && res.pos == start ==> AllNullable(k, ps))
    decreases fuel, ps, 0
  {
    hide Ok, Enough, Parse, LeftBelow, StarsAdvance, Nullable;
    if ps.Then? {
      if pos == start {
        Terminates(k, e, ps.first, pos, fuel, r);
      } else {
        BelowBound(k, e, ps.first);
        EnoughDrops(k, |e.input| - start, |e.input| - pos, r);
        Terminates(k, e, ps.first, pos, fuel, k.bound);
      }
      var first := Parse(e, ps.first, pos, fuel);
      if first.Parsed? { TerminatesSeq(k, e, ps.rest, start, first.pos, fuel, r); }
    }
  }

  lemma {:induction false} TerminatesOrd(k: Ranking, e: Env, ps: Pegs, pos: nat, fuel: nat, r: nat)
    requires Ok(k, e) && e.Valid() && pos <= |e.input| && r <= k.bound
    requires LeftOfAll(k, ps, r) && AllStarsAdvance(k, ps)
    requires Enough(k, |e.input| - pos, r) <= fuel
    ensures var res := ParseOrd(e, ps, pos, fuel);
            !res.Diverged? && (res.Parsed? && res.pos == pos ==> SomeNullable(k, ps))
    decreases fuel, ps, 0
  {
    hide Ok, Enough, Parse, LeftBelow, StarsAdvance, Nullable;
    if ps.Then? {
      Terminates(k, e, ps.first, pos, fuel, r);
      if Parse(e, ps.first, pos, fuel).Failed? { TerminatesOrd(k, e, ps.rest, pos, fuel, r); }
    }
  }

  lemma {:induction false} TerminatesStar(k: Ranking, e: Env, q: Peg, pos: nat, fuel: nat, r: nat)
    requires Ok(k, e) && e.Valid() && pos <= |e.input| && r <= k.bound
    requires LeftBelow(k, q, r) && StarsAdvance(k, Star(q))
    requires Enough(k, |e.input| - pos, r) <= fuel
    ensures !ParseStar(e, q, pos, fuel).Diverged?
    decreases fuel, q, 2
  {
    hide Ok, Enough, Parse, LeftBelow, StarsAdvance, Nullable;
    assert fuel > 0 by { EnoughPositive(k, |e.input| - pos, r); }
    StarFacts(k, q);
    Terminates(k, e, q, pos, fuel, r);
    var first := Parse(e, q, pos, fuel);
    if first.Parsed? {
      BelowBound(k, e, q);
      EnoughDrops(k, |e.input| - pos, |e.input| - first.pos, r);
      TerminatesStar(k, e, q, first.pos, fuel - 1, k.bound);
    }
  }

  /** Main result: in a ranked grammar every rule finishes on every input, within fuel that grows
      linearly with the input. */
  lemma {:induction false} EveryRuleTerminates(k: Ranking, e: Env, id: nat, fuel: nat)
    requires Ok(k, e) && Enough(k, |e.input|, k.bound) <= fuel
    ensures !Parse(e, NonTerminal(id), 0, fuel).Diverged?
  {
    assert RuleOk(k, id, e.g(id).body);
    Terminates(k, e, NonTerminal(id), 0, fuel, k.bound);
  }

  /** Neither condition can be dropped: a left-recursive rule and a starred empty literal run out of
      any fuel, on every input. */
  lemma {:induction false} LeftRecursionDiverges(e: Env, id: nat, pos: nat, fuel: nat)
    requires e.Valid() && pos <= |e.input| && e.g(id).body == NonTerminal(id)
    ensures Parse(e, NonTerminal(id), pos, fuel).Diverged?
    decreases fuel
  {
    if fuel > 0 { LeftRecursionDiverges(e, id, pos, fuel - 1); }
  }

  lemma {:induction false} StarredEmptyDiverges(e: Env, pos: nat, fuel: nat)
    requires e.Valid() && pos <= |e.input| && forall i | pos <= i <= |e.input| :: IsCharBoundary(e.input, i)
    ensures ParseStar(e, Literal(""), pos, fuel).Diverged? && Parse(e, Star(Literal("")), pos, fuel).Diverged?
    decreases fuel
  {
    if fuel > 0 {
      assert e.input[pos..pos] == "";
      assert LiteralMatches(e, "", pos);
      StarredEmptyDiverges(e, Skip(e, pos), fuel - 1);
    }
  }
}
