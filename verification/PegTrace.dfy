/** What a parser tries on its way: which terminals fail where, under which rule calls, and what a failed
    call leaves in the event buffer. Terminals tried inside a negation do not count; a negation whose
    body succeeds fails itself. */
module PegTrace {
  import opened Peg

  datatype Descriptor = ExpectedLiteral(literal: string) | ExpectedPattern(regex: string) | Unexpected

  /** A rule call. */
  datatype Entry = Entry(rule: nat, pos: nat)

  datatype Miss = Miss(descriptor: Descriptor, start: nat, end: nat)

  datatype Trace = Missed(miss: Miss) | Called(rule: nat, pos: nat, hidden: bool, inside: seq<Trace>)

  /** A miss with the calls it happened under, the outermost first. */
  datatype Found = Found(miss: Miss, under: seq<Entry>)

  /** parse_ord never makes a choice without alternatives. */
  predicate Choices(p: Peg) {
    match p
    case Seq(ps) => AllChoices(ps)
    case Ord(ps) => ps.Then? && AllChoices(ps)
    case Neg(q) => Choices(q)
    case Cut(q) => Choices(q)
    case Star(q) => Choices(q)
    case _ => true
  }

  predicate AllChoices(ps: Pegs) {
    ps.Then? ==> Choices(ps.first) && AllChoices(ps.rest)
  }

  ghost predicate MacroMade(g: Grammar) {
    forall id :: Choices(g(id).body)
  }

  // ---------- what a failed call leaves behind ----------

  /** A rule leaves its node even when its body fails, and a repetition that is cut short leaves what it has
      repeated; everything else is cleaned up. */
  ghost function Residue(e: Env, p: Peg, pos: nat, fuel: nat): seq<Tree>
    requires e.Valid() && pos <= |e.input|
    decreases fuel, p, 0
  {
    match p
    case NonTerminal(id) =>
      if fuel == 0 then [] else
      var kids := LeftBehind(e, e.g(id).body, pos, fuel - 1);
      [Node(id, pos, e.g(id).hidden && IsOneNode(kids), kids)]
    case Cut(q) => Residue(e, q, pos, fuel)
    case Star(q) => ResidueStar(e, q, pos, fuel)
    case _ => []
  }

  ghost function ResidueStar(e: Env, q: Peg, pos: nat, fuel: nat): seq<Tree>
    requires e.Valid() && pos <= |e.input|
    decreases fuel, q, 1
  {
    if fuel == 0 then [] else
    var first := Parse(e, q, pos, fuel);
    if first.Parsed? then first.forest + ResidueStar(e, q, first.pos, fuel - 1) else []
  }

  ghost function LeftBehind(e: Env, p: Peg, pos: nat, fuel: nat): seq<Tree>
    requires e.Valid() && pos <= |e.input|
    decreases fuel, p, 1
  {
    var r := Parse(e, p, pos, fuel);
    if r.Parsed? then r.forest else Residue(e, p, pos, fuel)
  }

  // ---------- the trace ----------

  ghost function Traces(e: Env, p: Peg, pos: nat, fuel: nat): seq<Trace>
    requires e.Valid() && pos <= |e.input|
    decreases fuel, p, 0
  {
    match p
    case Seq(ps) => TracesSeq(e, ps, pos, fuel)
    case Ord(ps) => TracesOrd(e, ps, pos, fuel)
    case Pattern(regex) =>
      if Parse(e, p, pos, fuel).Failed? then [Missed(Miss(ExpectedPattern(regex), pos, pos))] else []
    case Literal(literal) =>
      if Parse(e, p, pos, fuel).Failed? then [Missed(Miss(ExpectedLiteral(literal), pos, pos))] else []
    case NonTerminal(id) =>
      if fuel == 0 then [] else
      var body := e.g(id).body;
      [Called(id, pos, e.g(id).hidden && IsOneNode(LeftBehind(e, body, pos, fuel - 1)),
              Traces(e, body, pos, fuel - 1))]
    case Neg(q) =>
      var r := Parse(e, q, pos, fuel);
      if r.Parsed? then [Missed(Miss(Unexpected, pos, r.pos))] else []
    case Cut(q) => Traces(e, q, pos, fuel)
    case Star(q) => TracesStar(e, q, pos, fuel)
  }

  ghost function TracesSeq(e: Env, ps: Pegs, pos: nat, fuel: nat): seq<Trace>
    requires e.Valid() && pos <= |e.input|
    decreases fuel, ps, 0
  {
    if ps.Done? then [] else
    var first := Parse(e, ps.first, pos, fuel);
    Traces(e, ps.first, pos, fuel) + if first.Parsed? then TracesSeq(e, ps.rest, first.pos, fuel) else []
  }

  ghost function TracesOrd(e: Env, ps: Pegs, pos: nat, fuel: nat): seq<Trace>
    requires e.Valid() && pos <= |e.input|
    decreases fuel, ps, 0
  {
    if ps.Done? then [] else
    Traces(e, ps.first, pos, fuel)
    + if Parse(e, ps.first, pos, fuel).Failed? then TracesOrd(e, ps.rest, pos, fuel) else []
  }

  ghost function TracesStar(e: Env, q: Peg, pos: nat, fuel: nat): seq<Trace>
    requires e.Valid() && pos <= |e.input|
    decreases fuel, q, 1
  {
    if fuel == 0 then [] else
    var first := Parse(e, q, pos, fuel);
    Traces(e, q, pos, fuel) + if first.Parsed? then TracesStar(e, q, first.pos, fuel - 1) else []
  }

  /** The misses of a trace, in order. */
  function Misses(ts: seq<Trace>, under: seq<Entry>): seq<Found> {
    if ts == [] then [] else
    (match ts[0]
     case Missed(miss) => [Found(miss, under)]
     case Called(rule, pos, _, inside) => Misses(inside, under + [Entry(rule, pos)]))
    + Misses(ts[1..], under)
  }

  lemma {:induction false} MissesAppend(a: seq<Trace>, b: seq<Trace>, under: seq<Entry>)
    ensures Misses(a + b, under) == Misses(a, under) + Misses(b, under)
    decreases |a|
  {
    if a == [] {
      assert a + b == b;
    } else {
      assert (a + b)[1..] == a[1..] + b;
      MissesAppend(a[1..], b, under);
    }
  }

  // ---------- the same, as a relation ----------

  /** A literal, a pattern or a negation that is tried at a position, under some rule calls. */
  datatype Try = Try(p: Peg, pos: nat, fuel: nat, under: seq<Entry>)

  ghost predicate Tries(e: Env, p: Peg, pos: nat, fuel: nat, under: seq<Entry>, t: Try)
    requires e.Valid() && pos <= |e.input|
    decreases fuel, p, 0
  {
    match p
    case Seq(ps) => TriesSeq(e, ps, pos, fuel, under, t)
    case Ord(ps) => TriesOrd(e, ps, pos, fuel, under, t)
    case NonTerminal(id) => fuel > 0 && Tries(e, e.g(id).body, pos, fuel - 1, under + [Entry(id, pos)], t)
    case Cut(q) => Tries(e, q, pos, fuel, under, t)
    case Star(q) => TriesStar(e, q, pos, fuel, under, t)
    case _ => t == Try(p, pos, fuel, under)
  }

  /** The rest of a sequence is tried where its first part ended. */
  ghost predicate TriesSeq(e: Env, ps: Pegs, pos: nat, fuel: nat, under: seq<Entry>, t: Try)
    requires e.Valid() && pos <= |e.input|
    decreases fuel, ps, 0
  {
    && ps.Then?
    && (Tries(e, ps.first, pos, fuel, under, t)
        || var first := Parse(e, ps.first, pos, fuel);
           first.Parsed? && TriesSeq(e, ps.rest, first.pos, fuel, under, t))
  }

  /** The other alternatives of a choice are tried at the same position after the first has failed. */
  ghost predicate TriesOrd(e: Env, ps: Pegs, pos: nat, fuel: nat, under: seq<Entry>, t: Try)
    requires e.Valid() && pos <= |e.input|
    decreases fuel, ps, 0
  {
    && ps.Then?
    && (Tries(e, ps.first, pos, fuel, under, t)
        || (Parse(e, ps.first, pos, fuel).Failed? && TriesOrd(e, ps.rest, pos, fuel, under, t)))
  }

  ghost predicate TriesStar(e: Env, q: Peg, pos: nat, fuel: nat, under: seq<Entry>, t: Try)
    requires e.Valid() && pos <= |e.input|
    decreases fuel, q, 1
  {
    && fuel > 0
    && (Tries(e, q, pos, fuel, under, t)
        || var first := Parse(e, q, pos, fuel);
           first.Parsed? && TriesStar(e, q, first.pos, fuel - 1, under, t))
  }

  ghost predicate Fails(e: Env, t: Try)
    requires e.Valid()
  {
    t.pos <= |e.input| && Parse(e, t.p, t.pos, t.fuel).Failed?
  }

  /** What is said of a failed try: what was expected at its position, or for a negation the text that was
      not expected. */
  ghost predicate Says(e: Env, t: Try, x: Found)
    requires e.Valid() && t.pos <= |e.input|
  {
    && x.under == t.under && x.miss.start == t.pos
    && match t.p
       case Literal(literal) => x.miss.descriptor == ExpectedLiteral(literal) && x.miss.end == t.pos
       case Pattern(regex) => x.miss.descriptor == ExpectedPattern(regex) && x.miss.end == t.pos
       case Neg(q) =>
         && x.miss.descriptor == Unexpected
         && var r := Parse(e, q, t.pos, t.fuel); r.Parsed? && x.miss.end == r.pos
       case _ => false
  }

  ghost predicate FailedTry(e: Env, p: Peg, pos: nat, fuel: nat, under: seq<Entry>, x: Found)
    requires e.Valid() && pos <= |e.input|
  {
    exists t :: Tries(e, p, pos, fuel, under, t) && Fails(e, t) && Says(e, t, x)
  }

  ghost predicate FailedInSeq(e: Env, ps: Pegs, pos: nat, fuel: nat, under: seq<Entry>, x: Found)
    requires e.Valid() && pos <= |e.input|
  {
    exists t :: TriesSeq(e, ps, pos, fuel, under, t) && Fails(e, t) && Says(e, t, x)
  }

  ghost predicate FailedInOrd(e: Env, ps: Pegs, pos: nat, fuel: nat, under: seq<Entry>, x: Found)
    requires e.Valid() && pos <= |e.input|
  {
    exists t :: TriesOrd(e, ps, pos, fuel, under, t) && Fails(e, t) && Says(e, t, x)
  }

  ghost predicate FailedInStar(e: Env, q: Peg, pos: nat, fuel: nat, under: seq<Entry>, x: Found)
    requires e.Valid() && pos <= |e.input|
  {
    exists t :: TriesStar(e, q, pos, fuel, under, t) && Fails(e, t) && Says(e, t, x)
  }

  /** Main result: the misses are exactly the tries that fail, each at the position where it was tried and
      under the calls that led to it. */
  lemma {:induction false} MissesAreFailedTries(e: Env, p: Peg, pos: nat, fuel: nat, under: seq<Entry>, x: Found)
    requires e.Valid() && pos <= |e.input|
    ensures x in Misses(Traces(e, p, pos, fuel), under) <==> FailedTry(e, p, pos, fuel, under, x)
    decreases fuel, p, 2
  {
    hide Misses, FailedTry, FailedInSeq, FailedInOrd, FailedInStar, LeftBehind;
    match p {
      case Seq(ps) =>
        MissesInSeq(e, ps, pos, fuel, under, x);
        FailedTrySeq(e, ps, pos, fuel, under, x);
      case Ord(ps) =>
        MissesInOrd(e, ps, pos, fuel, under, x);
        FailedTryOrd(e, ps, pos, fuel, under, x);
      case NonTerminal(id) =>
        if fuel > 0 {
          MissesAreFailedTries(e, e.g(id).body, pos, fuel - 1, under + [Entry(id, pos)], x);
          MissesInCall(e, id, pos, fuel, under, x);
        } else {
          NothingTried(e, id, pos, under, x);
        }
      case Cut(q) =>
        MissesAreFailedTries(e, q, pos, fuel, under, x);
        FailedTryCut(e, q, pos, fuel, under, x);
      case Star(q) =>
        MissesInStar(e, q, pos, fuel, under, x);
        FailedTryStar(e, q, pos, fuel, under, x);
      case _ => MissAtLeaf(e, p, pos, fuel, under, x);
    }
  }

  lemma FailedTrySeq(e: Env, ps: Pegs, pos: nat, fuel: nat, under: seq<Entry>, x: Found)
    requires e.Valid() && pos <= |e.input|
    ensures FailedTry(e, Seq(ps), pos, fuel, under, x) <==> FailedInSeq(e, ps, pos, fuel, under, x)
  {
    hide Fails, Says, Parse;
    assert forall t :: Tries(e, Seq(ps), pos, fuel, under, t) <==> TriesSeq(e, ps, pos, fuel, under, t);
  }

  lemma FailedTryOrd(e: Env, ps: Pegs, pos: nat, fuel: nat, under: seq<Entry>, x: Found)
    requires e.Valid() && pos <= |e.input|
    ensures FailedTry(e, Ord(ps), pos, fuel, under, x) <==> FailedInOrd(e, ps, pos, fuel, under, x)
  {
    hide Fails, Says, Parse;
    assert forall t :: Tries(e, Ord(ps), pos, fuel, under, t) <==> TriesOrd(e, ps, pos, fuel, under, t);
  }

  lemma FailedTryStar(e: Env, q: Peg, pos: nat, fuel: nat, under: seq<Entry>, x: Found)
    requires e.Valid() && pos <= |e.input|
    ensures FailedTry(e, Star(q), pos, fuel, under, x) <==> FailedInStar(e, q, pos, fuel, under, x)
  {
    hide Fails, Says, Parse;
    assert forall t :: Tries(e, Star(q), pos, fuel, under, t) <==> TriesStar(e, q, pos, fuel, under, t);
  }

  lemma FailedTryCut(e: Env, q: Peg, pos: nat, fuel: nat, under: seq<Entry>, x: Found)
    requires e.Valid() && pos <= |e.input|
    ensures FailedTry(e, Cut(q), pos, fuel, under, x) <==> FailedTry(e, q, pos, fuel, under, x)
  {
    hide Fails, Says, Parse;
    assert forall t :: Tries(e, Cut(q), pos, fuel, under, t) <==> Tries(e, q, pos, fuel, under, t);
  }

  lemma NothingTried(e: Env, id: nat, pos: nat, under: seq<Entry>, x: Found)
    requires e.Valid() && pos <= |e.input|
    ensures Misses(Traces(e, NonTerminal(id), pos, 0), under) == []
    ensures !FailedTry(e, NonTerminal(id), pos, 0, under, x)
  {
  }

  lemma MissesInCall(e: Env, id: nat, pos: nat, fuel: nat, under: seq<Entry>, x: Found)
    requires e.Valid() && pos <= |e.input| && fuel > 0
    ensures var body, inner := e.g(id).body, under + [Entry(id, pos)];
            && Misses(Traces(e, NonTerminal(id), pos, fuel), under) == Misses(Traces(e, body, pos, fuel - 1), inner)
            && (FailedTry(e, NonTerminal(id), pos, fuel, under, x) <==> FailedTry(e, body, pos, fuel - 1, inner, x))
  {
    hide Fails, Says, LeftBehind;
    var ts := Traces(e, NonTerminal(id), pos, fuel);
    assert Misses(ts[1..], under) == [];
    var body, inner := e.g(id).body, under + [Entry(id, pos)];
    assert forall t :: Tries(e, NonTerminal(id), pos, fuel, under, t) <==> Tries(e, body, pos, fuel - 1, inner, t);
  }

  lemma MissAtLeaf(e: Env, p: Peg, pos: nat, fuel: nat, under: seq<Entry>, x: Found)
    requires e.Valid() && pos <= |e.input| && (p.Pattern? || p.Literal? || p.Neg?)
    ensures x in Misses(Traces(e, p, pos, fuel), under) <==> FailedTry(e, p, pos, fuel, under, x)
  {
    var ts := Traces(e, p, pos, fuel);
    assert ts != [] ==> Misses(ts[1..], under) == [];
    var t := Try(p, pos, fuel, under);
    assert FailedTry(e, p, pos, fuel, under, x) <==> Fails(e, t) && Says(e, t, x);
    if Fails(e, t) && Says(e, t, x) {
      assert x == Found(x.miss, under) && x.miss == Miss(x.miss.descriptor, x.miss.start, x.miss.end);
    }
  }

  lemma {:induction false} MissesInSeq(e: Env, ps: Pegs, pos: nat, fuel: nat, under: seq<Entry>, x: Found)
    requires e.Valid() && pos <= |e.input|
    ensures x in Misses(TracesSeq(e, ps, pos, fuel), under) <==> FailedInSeq(e, ps, pos, fuel, under, x)
    decreases fuel, ps, 0
  {
    hide Parse, Tries, Traces, Fails, Says, Misses;
    NoMisses(under);
    if ps.Then? {
      var first := Parse(e, ps.first, pos, fuel);
      MissesAreFailedTries(e, ps.first, pos, fuel, under, x);
      var more := if first.Parsed? then TracesSeq(e, ps.rest, first.pos, fuel) else [];
      MissesAppend(Traces(e, ps.first, pos, fuel), more, under);
      if first.Parsed? { MissesInSeq(e, ps.rest, first.pos, fuel, under, x); }
    }
  }

  lemma {:induction false} MissesInOrd(e: Env, ps: Pegs, pos: nat, fuel: nat, under: seq<Entry>, x: Found)
    requires e.Valid() && pos <= |e.input|
    ensures x in Misses(TracesOrd(e, ps, pos, fuel), under) <==> FailedInOrd(e, ps, pos, fuel, under, x)
    decreases fuel, ps, 0
  {
    hide Parse, Tries, Traces, Fails, Says, Misses;
    NoMisses(under);
    if ps.Then? {
      var failed := Parse(e, ps.first, pos, fuel).Failed?;
      MissesAreFailedTries(e, ps.first, pos, fuel, under, x);
      MissesAppend(Traces(e, ps.first, pos, fuel), if failed then TracesOrd(e, ps.rest, pos, fuel) else [], under);
      if failed { MissesInOrd(e, ps.rest, pos, fuel, under, x); }
    }
  }

  lemma {:induction false} MissesInStar(e: Env, q: Peg, pos: nat, fuel: nat, under: seq<Entry>, x: Found)
    requires e.Valid() && pos <= |e.input|
    ensures x in Misses(TracesStar(e, q, pos, fuel), under) <==> FailedInStar(e, q, pos, fuel, under, x)
    decreases fuel, q, 3
  {
    hide Parse, Tries, Traces, Fails, Says, Misses;
    NoMisses(under);
    if fuel > 0 {
      var first := Parse(e, q, pos, fuel);
      MissesAreFailedTries(e, q, pos, fuel, under, x);
      var more := if first.Parsed? then TracesStar(e, q, first.pos, fuel - 1) else [];
      MissesAppend(Traces(e, q, pos, fuel), more, under);
      if first.Parsed? { MissesInStar(e, q, first.pos, fuel - 1, under, x); }
    }
  }

  lemma NoMisses(under: seq<Entry>)
    ensures Misses([], under) == []
  {
  }

  // ---------- a failure is always said ----------

  lemma {:induction false} FailureMisses(e: Env, p: Peg, pos: nat, fuel: nat, under: seq<Entry>)
    requires e.Valid() && pos <= |e.input| && MacroMade(e.g) && Choices(p)
    requires var r := Parse(e, p, pos, fuel); r.Failed? || r.Aborted?
    ensures Misses(Traces(e, p, pos, fuel), under) != []
    decreases fuel, p, 2
  {
    hide Misses, LeftBehind;
    match p {
      case Seq(ps) => FailureInSeq(e, ps, pos, fuel, under);
      case Ord(ps) => FailureInOrd(e, ps, pos, fuel, under);
      case NonTerminal(id) =>
        FailureMisses(e, e.g(id).body, pos, fuel - 1, under + [Entry(id, pos)]);
        MissesInCall(e, id, pos, fuel, under, Found(Miss(Unexpected, 0, 0), []));
      case Cut(q) => FailureMisses(e, q, pos, fuel, under);
      case Star(q) => FailureInStar(e, q, pos, fuel, under);
      case _ => FailureAtLeaf(e, p, pos, fuel, under);
    }
  }

  lemma FailureAtLeaf(e: Env, p: Peg, pos: nat, fuel: nat, under: seq<Entry>)
    requires e.Valid() && pos <= |e.input| && (p.Pattern? || p.Literal? || p.Neg?)
    requires var r := Parse(e, p, pos, fuel); r.Failed? || r.Aborted?
    ensures Misses(Traces(e, p, pos, fuel), under) != []
  {
  }

  lemma {:induction false} FailureInSeq(e: Env, ps: Pegs, pos: nat, fuel: nat, under: seq<Entry>)
    requires e.Valid() && pos <= |e.input| && MacroMade(e.g) && AllChoices(ps)
    requires var r := ParseSeq(e, ps, pos, fuel); r.Failed? || r.Aborted?
    ensures Misses(TracesSeq(e, ps, pos, fuel), under) != []
    decreases fuel, ps, 0
  {
    hide Parse, Traces, Misses;
    var first := Parse(e, ps.first, pos, fuel);
    var more := if first.Parsed? then TracesSeq(e, ps.rest, first.pos, fuel) else [];
    MissesAppend(Traces(e, ps.first, pos, fuel), more, under);
    if first.Parsed? {
      FailureInSeq(e, ps.rest, first.pos, fuel, under);
    } else {
      FailureMisses(e, ps.first, pos, fuel, under);
    }
  }

  lemma {:induction false} FailureInOrd(e: Env, ps: Pegs, pos: nat, fuel: nat, under: seq<Entry>)
    requires e.Valid() && pos <= |e.input| && MacroMade(e.g) && AllChoices(ps) && ps.Then?
    requires var r := ParseOrd(e, ps, pos, fuel); r.Failed? || r.Aborted?
    ensures Misses(TracesOrd(e, ps, pos, fuel), under) != []
    decreases fuel, ps, 0
  {
    hide Parse, Traces, Misses;
    var first := Parse(e, ps.first, pos, fuel);
    MissesAppend(Traces(e, ps.first, pos, fuel),
                 if first.Failed? then TracesOrd(e, ps.rest, pos, fuel) else [], under);
    FailureMisses(e, ps.first, pos, fuel, under);
  }

  lemma {:induction false} FailureInStar(e: Env, q: Peg, pos: nat, fuel: nat, under: seq<Entry>)
    requires e.Valid() && pos <= |e.input| && MacroMade(e.g) && Choices(q)
    requires var r := ParseStar(e, q, pos, fuel); r.Failed? || r.Aborted?
    ensures Misses(TracesStar(e, q, pos, fuel), under) != []
    decreases fuel, q, 3
  {
    hide Parse, Traces, Misses;
    var first := Parse(e, q, pos, fuel);
    var more := if first.Parsed? then TracesStar(e, q, first.pos, fuel - 1) else [];
    MissesAppend(Traces(e, q, pos, fuel), more, under);
    if first.Parsed? {
      FailureInStar(e, q, first.pos, fuel - 1, under);
    } else {
      FailureMisses(e, q, pos, fuel, under);
    }
  }
}
