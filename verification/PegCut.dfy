/** What cuts do to a grammar: they turn some outcomes into hard errors and change nothing else, as long
    as what is negated is free of them. */
module PegCut {
  import opened Peg

  function Uncut(p: Peg): Peg
  {
    match p
    case Seq(ps) => Seq(UncutAll(ps))
    case Ord(ps) => Ord(UncutAll(ps))
    case Neg(q) => Neg(Uncut(q))
    case Cut(q) => Uncut(q)
    case Star(q) => Star(Uncut(q))
    case _ => p
  }

  function UncutAll(ps: Pegs): Pegs {
    match ps
    case Done => Done
    case Then(first, rest) => Then(Uncut(first), UncutAll(rest))
  }

  /** The result has no cut at all, and a parser without cuts is left as it is. */
  lemma {:induction false} UncutHasNoCuts(p: Peg)
    ensures Clean((id: nat) => true, Uncut(p))
    ensures Clean((id: nat) => true, p) ==> Uncut(p) == p
  {
    match p {
      case Seq(ps) => UncutAllHaveNoCuts(ps);
      case Ord(ps) => UncutAllHaveNoCuts(ps);
      case Neg(q) => UncutHasNoCuts(q);
      case Cut(q) => UncutHasNoCuts(q);
      case Star(q) => UncutHasNoCuts(q);
      case _ =>
    }
  }

  lemma {:induction false} UncutAllHaveNoCuts(ps: Pegs)
    ensures AllClean((id: nat) => true, UncutAll(ps))
    ensures AllClean((id: nat) => true, ps) ==> UncutAll(ps) == ps
  {
    if ps.Then? {
      UncutHasNoCuts(ps.first);
      UncutAllHaveNoCuts(ps.rest);
    }
  }

  function UncutEnv(e: Env): Env {
    Env((id: nat) => Rule(e.g(id).hidden, Uncut(e.g(id).body)), e.lex, e.input)
  }

  /** No cut in p, nor in any rule it calls, `clean` being the rules without. */
  predicate Clean(clean: nat -> bool, p: Peg) {
    match p
    case Seq(ps) => AllClean(clean, ps)
    case Ord(ps) => AllClean(clean, ps)
    case NonTerminal(id) => clean(id)
    case Neg(q) => Clean(clean, q)
    case Cut(_) => false
    case Star(q) => Clean(clean, q)
    case _ => true
  }

  predicate AllClean(clean: nat -> bool, ps: Pegs) {
    ps.Then? ==> Clean(clean, ps.first) && AllClean(clean, ps.rest)
  }

  /** Whatever is negated in p is clean. */
  predicate NegsClean(clean: nat -> bool, p: Peg) {
    match p
    case Seq(ps) => AllNegsClean(clean, ps)
    case Ord(ps) => AllNegsClean(clean, ps)
    case Neg(q) => Clean(clean, q)
    case Cut(q) => NegsClean(clean, q)
    case Star(q) => NegsClean(clean, q)
    case _ => true
  }

  predicate AllNegsClean(clean: nat -> bool, ps: Pegs) {
    ps.Then? ==> NegsClean(clean, ps.first) && AllNegsClean(clean, ps.rest)
  }

  ghost predicate RulesOk(clean: nat -> bool, g: Grammar) {
    forall id :: RuleOk(clean, g, id)
  }

  predicate RuleOk(clean: nat -> bool, g: Grammar, id: nat) {
    NegsClean(clean, g(id).body) && (clean(id) ==> Clean(clean, g(id).body))
  }

  ghost predicate SameWithout(r: Result, r': Result, exact: bool) {
    if r.Aborted? then !exact else r' == r
  }

  /** Main result: with cuts a parse either is a hard error, or it is what the grammar without cuts gives;
      a parser without cuts, and without calls to rules with cuts, is never a hard error. */
  lemma {:induction false} CutsOnlyReject(e: Env, clean: nat -> bool, p: Peg, pos: nat, fuel: nat)
    requires e.Valid() && pos <= |e.input| && RulesOk(clean, e.g)
    requires NegsClean(clean, p) || Clean(clean, p)
    ensures SameWithout(Parse(e, p, pos, fuel), Parse(UncutEnv(e), Uncut(p), pos, fuel), Clean(clean, p))
    decreases fuel, p, 1
  {
    hide RulesOk;
    match p {
      case Seq(ps) => SeqOnlyRejects(e, clean, ps, pos, fuel);
      case Ord(ps) => OrdOnlyRejects(e, clean, ps, pos, fuel);
      case NonTerminal(id) =>
        if fuel > 0 {
          RuleAt(e, clean, id);
          CutsOnlyReject(e, clean, e.g(id).body, pos, fuel - 1);
          CallSame(e, clean, id, pos, fuel);
        }
      case Neg(q) => CutsOnlyReject(e, clean, q, pos, fuel);
      case Cut(q) => CutsOnlyReject(e, clean, q, pos, fuel);
      case Star(q) => StarOnlyRejects(e, clean, q, pos, fuel);
      case _ => LeafSame(e, p, pos, fuel);
    }
  }

  lemma CallSame(e: Env, clean: nat -> bool, id: nat, pos: nat, fuel: nat)
    requires e.Valid() && pos <= |e.input| && fuel > 0 && RuleOk(clean, e.g, id)
    requires var body := e.g(id).body;
             SameWithout(Parse(e, body, pos, fuel - 1), Parse(UncutEnv(e), Uncut(body), pos, fuel - 1),
                         Clean(clean, body))
    ensures SameWithout(Parse(e, NonTerminal(id), pos, fuel), Parse(UncutEnv(e), NonTerminal(id), pos, fuel),
                        clean(id))
  {
    hide Uncut, Clean, NegsClean;
  }

  lemma LeafSame(e: Env, p: Peg, pos: nat, fuel: nat)
    requires e.Valid() && pos <= |e.input| && (p.Pattern? || p.Literal?)
    ensures Uncut(p) == p && !Parse(e, p, pos, fuel).Aborted?
    ensures Parse(UncutEnv(e), p, pos, fuel) == Parse(e, p, pos, fuel)
  {
  }

  lemma RuleAt(e: Env, clean: nat -> bool, id: nat)
    requires RulesOk(clean, e.g)
    ensures RuleOk(clean, e.g, id)
  {
  }

  lemma {:induction false} SeqOnlyRejects(e: Env, clean: nat -> bool, ps: Pegs, pos: nat, fuel: nat)
    requires e.Valid() && pos <= |e.input| && RulesOk(clean, e.g)
    requires AllNegsClean(clean, ps) || AllClean(clean, ps)
    ensures SameWithout(ParseSeq(e, ps, pos, fuel), ParseSeq(UncutEnv(e), UncutAll(ps), pos, fuel), AllClean(clean, ps))
    decreases fuel, ps, 0
  {
    hide RulesOk, Parse, UncutEnv;
    if ps.Then? {
      SameInput(e);
      CutsOnlyReject(e, clean, ps.first, pos, fuel);
      var first := Parse(e, ps.first, pos, fuel);
      if first.Parsed? { SeqOnlyRejects(e, clean, ps.rest, first.pos, fuel); }
    }
  }

  lemma SameInput(e: Env)
    ensures UncutEnv(e).input == e.input && UncutEnv(e).lex == e.lex
    ensures e.Valid() ==> UncutEnv(e).Valid()
  {
  }

  lemma {:induction false} OrdOnlyRejects(e: Env, clean: nat -> bool, ps: Pegs, pos: nat, fuel: nat)
    requires e.Valid() && pos <= |e.input| && RulesOk(clean, e.g)
    requires AllNegsClean(clean, ps) || AllClean(clean, ps)
    ensures SameWithout(ParseOrd(e, ps, pos, fuel), ParseOrd(UncutEnv(e), UncutAll(ps), pos, fuel), AllClean(clean, ps))
    decreases fuel, ps, 0
  {
    hide RulesOk, Parse, UncutEnv;
    if ps.Then? {
      SameInput(e);
      CutsOnlyReject(e, clean, ps.first, pos, fuel);
      if Parse(e, ps.first, pos, fuel).Failed? { OrdOnlyRejects(e, clean, ps.rest, pos, fuel); }
    }
  }

  lemma {:induction false} StarOnlyRejects(e: Env, clean: nat -> bool, q: Peg, pos: nat, fuel: nat)
    requires e.Valid() && pos <= |e.input| && RulesOk(clean, e.g)
    requires NegsClean(clean, q) || Clean(clean, q)
    ensures SameWithout(ParseStar(e, q, pos, fuel), ParseStar(UncutEnv(e), Uncut(q), pos, fuel), Clean(clean, q))
    decreases fuel, q, 2
  {
    hide RulesOk, Parse, UncutEnv;
    if fuel > 0 {
      SameInput(e);
      CutsOnlyReject(e, clean, q, pos, fuel);
      var first := Parse(e, q, pos, fuel);
      if first.Parsed? { StarOnlyRejects(e, clean, q, first.pos, fuel - 1); }
    }
  }

  /** A cut decides a choice: once what comes before it has matched, later alternatives are not tried, a
      repetition does not end in success, and only a negation goes on. */
  lemma CutDecides(e: Env, before: Peg, after: Peg, rest: Pegs, pos: nat, fuel: nat)
    requires e.Valid() && pos <= |e.input| && fuel > 0
    requires var r := Parse(e, before, pos, fuel); r.Parsed? && Parse(e, after, r.pos, fuel).Failed?
    ensures var p := Seq(Then(before, Then(Cut(after), Done)));
            && ParseOrd(e, Then(p, rest), pos, fuel) == Aborted
            && Parse(e, Star(p), pos, fuel) == Aborted
            && Parse(e, Neg(p), pos, fuel) == Parsed(pos, [])
    ensures ParseOrd(e, Then(Seq(Then(before, Then(after, Done))), rest), pos, fuel) == ParseOrd(e, rest, pos, fuel)
  {
    var r := Parse(e, before, pos, fuel);
    assert Parse(e, Cut(after), r.pos, fuel) == Aborted;
    assert ParseSeq(e, Then(Cut(after), Done), r.pos, fuel) == Aborted;
    assert ParseSeq(e, Then(after, Done), r.pos, fuel) == Failed;
    assert Parse(e, Seq(Then(before, Then(Cut(after), Done))), pos, fuel) == Aborted;
    assert Parse(e, Seq(Then(before, Then(after, Done))), pos, fuel) == Failed;
  }
}
