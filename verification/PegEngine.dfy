/** The code that the peg! macro generates: recursive-descent parsers over one shared event buffer
    that is appended to, truncated on failure and patched in place when a rule turns out to be
    hidden, plus an error log. It is proved against the tree-valued meaning of Peg. */
module PegEngine {
  import opened Peg
  import opened PegTrace

  datatype Event =
    | OpenEvent(rule: nat, pos: nat, hidden: bool)
    | CloseEvent(openIdx: nat, hidden: bool)
    | LiteralEvent(literal: string, start: nat, end: nat)
    | PatternEvent(start: nat, end: nat)
    | ErrorEvent(descriptor: Descriptor, start: nat, end: nat)

  datatype Outcome = Ok(pos: nat) | Fail | Error | OutOfFuel

  // ---------- events of a forest ----------

  function FlattenTree(t: Tree, base: nat): (events: seq<Event>)
    ensures events != []
    decreases t, 0
  {
    match t
    case Node(rule, pos, hidden, kids) =>
      [OpenEvent(rule, pos, hidden)] + Flatten(kids, base + 1) + [CloseEvent(base, hidden)]
    case LiteralLeaf(literal, start, end) => [LiteralEvent(literal, start, end)]
    case PatternLeaf(start, end) => [PatternEvent(start, end)]
  }

  /** base is the index of the first event in the buffer. */
  function Flatten(ts: seq<Tree>, base: nat): seq<Event>
    decreases ts, 1
  {
    if ts == [] then [] else
    var first := FlattenTree(ts[0], base);
    first + Flatten(ts[1..], base + |first|)
  }

  lemma {:induction false} FlattenAppend(a: seq<Tree>, b: seq<Tree>, base: nat)
    ensures Flatten(a + b, base) == Flatten(a, base) + Flatten(b, base + |Flatten(a, base)|)
    decreases |a|
  {
    if a == [] {
      assert a + b == b;
    } else {
      assert (a + b)[1..] == a[1..] + b;
      var first := FlattenTree(a[0], base);
      FlattenAppend(a[1..], b, base + |first|);
    }
  }

  /** The test the generated code makes on the last event: it closes the event right after the
      rule's own open event exactly when the body is a single rule node. */
  lemma {:induction false} LastClosesFirst(ts: seq<Tree>, base: nat)
    requires ts != []
    ensures Flatten(ts, base) != []
    ensures var events := Flatten(ts, base);
            var last := events[|events| - 1];
            (last.CloseEvent? && last.openIdx == base) <==> IsOneNode(ts)
    ensures var events := Flatten(ts, base);
            var last := events[|events| - 1];
            last.CloseEvent? ==> last.openIdx >= base
  {
    var first := FlattenTree(ts[0], base);
    if |ts| > 1 { LastClosesFirst(ts[1..], base + |first|); }
  }

  // ---------- the error log ----------

  /** How many rules are open after these log entries. */
  function Depth(log: seq<Event>): int {
    if log == [] then 0 else
    var last := log[|log| - 1];
    Depth(log[..|log| - 1]) + if last.OpenEvent? then 1 else if last.CloseEvent? then -1 else 0
  }

  ghost predicate LogEvents(log: seq<Event>) {
    forall x | x in log :: (x.OpenEvent? && !x.hidden) || x.CloseEvent? || x.ErrorEvent?
  }

  /** Opens and closes match, whatever the closes say about hiding. */
  ghost predicate Balanced(log: seq<Event>) {
    LogEvents(log) && Depth(log) == 0 && forall k | 0 <= k <= |log| :: Depth(log[..k]) >= 0
  }

  /** A balanced log whose errors are all inside some rule. */
  ghost predicate Rooted(log: seq<Event>) {
    Balanced(log) && forall k | 0 <= k < |log| && log[k].ErrorEvent? :: Depth(log[..k]) >= 1
  }

  lemma {:induction false} DepthAppend(a: seq<Event>, b: seq<Event>)
    ensures Depth(a + b) == Depth(a) + Depth(b)
    decreases |b|
  {
    if b == [] {
      assert a + b == a;
    } else {
      assert (a + b)[..|a + b| - 1] == a + b[..|b| - 1];
      DepthAppend(a, b[..|b| - 1]);
    }
  }

  lemma {:induction false} BalancedAppend(a: seq<Event>, b: seq<Event>)
    requires Balanced(a) && Balanced(b)
    ensures Balanced(a + b)
  {
    DepthAppend(a, b);
    forall k | 0 <= k <= |a + b| ensures Depth((a + b)[..k]) >= 0 {
      if k <= |a| {
        assert (a + b)[..k] == a[..k];
      } else {
        assert (a + b)[..k] == a + b[..k - |a|];
        DepthAppend(a, b[..k - |a|]);
      }
    }
  }

  lemma BalancedError(d: Descriptor, start: nat, end: nat)
    ensures Balanced([ErrorEvent(d, start, end)])
  {
    var log := [ErrorEvent(d, start, end)];
    assert log[..0] == [];
    forall k | 0 <= k <= |log| ensures Depth(log[..k]) >= 0 {
      if k == 1 { assert log[..1] == log; } else { assert log[..k] == []; }
    }
  }

  lemma {:induction false} BalancedRule(log: seq<Event>, open: Event, close: Event)
    requires Balanced(log) && open.OpenEvent? && !open.hidden && close.CloseEvent?
    ensures Rooted([open] + log + [close])
  {
    var all := [open] + log + [close];
    forall k | 0 <= k <= |all| ensures Depth(all[..k]) >= if 0 < k < |all| then 1 else 0 {
      DepthInRule(log, open, close, k);
    }
    DepthInRule(log, open, close, |all|);
    assert all[..|all|] == all;
    assert Depth(all) == 0;
  }

  lemma {:induction false} DepthInRule(log: seq<Event>, open: Event, close: Event, k: nat)
    requires Balanced(log) && open.OpenEvent? && close.CloseEvent? && k <= |log| + 2
    ensures var d := Depth(([open] + log + [close])[..k]);
            if k == 0 || k == |log| + 2 then d == 0 else d >= 1
  {
    var all := [open] + log + [close];
    assert Depth([open]) == 1 by { assert [open][..0] == []; }
    if k == 0 {
      assert all[..0] == [];
    } else if k <= |log| + 1 {
      assert all[..k] == [open] + log[..k - 1];
      DepthAppend([open], log[..k - 1]);
    } else {
      assert all[..k] == [open] + log + [close];
      DepthAppend([open] + log, [close]);
      DepthAppend([open], log);
      assert Depth([close]) == -1 by { assert [close][..0] == []; }
    }
  }

  /** The log of a trace. A close says which event it closes, which nobody reads in a log: it is left out
      here, and by Erased. */
  function LogOf(ts: seq<Trace>): seq<Event> {
    if ts == [] then [] else
    (match ts[0]
     case Missed(miss) => [ErrorEvent(miss.descriptor, miss.start, miss.end)]
     case Called(rule, pos, hidden, inside) =>
       [OpenEvent(rule, pos, false)] + LogOf(inside) + [CloseEvent(0, hidden)])
    + LogOf(ts[1..])
  }

  function Erase(event: Event): Event {
    if event.CloseEvent? then CloseEvent(0, event.hidden) else event
  }

  function Erased(log: seq<Event>): (r: seq<Event>)
    ensures |r| == |log|
  {
    seq(|log|, i requires 0 <= i < |log| => Erase(log[i]))
  }

  lemma ErasedAppend(a: seq<Event>, b: seq<Event>)
    ensures Erased(a + b) == Erased(a) + Erased(b)
  {
  }

  lemma ErasedPrefix(log: seq<Event>, k: nat)
    requires k <= |log|
    ensures Erased(log[..k]) == Erased(log)[..k]
  {
  }

  lemma {:induction false} LogOfAppend(a: seq<Trace>, b: seq<Trace>)
    ensures LogOf(a + b) == LogOf(a) + LogOf(b)
    decreases |a|
  {
    if a == [] {
      assert a + b == b;
    } else {
      assert (a + b)[1..] == a[1..] + b;
      LogOfAppend(a[1..], b);
    }
  }

  lemma OneTrace(t: Trace)
    ensures LogOf([t])
            == match t
               case Missed(miss) => [ErrorEvent(miss.descriptor, miss.start, miss.end)]
               case Called(rule, pos, hidden, inside) =>
                 [OpenEvent(rule, pos, false)] + LogOf(inside) + [CloseEvent(0, hidden)]
  {
    assert [t][1..] == [];
  }

  /** The log of a trace is balanced, and that of one call is rooted. */
  lemma {:induction false} LogIsBalanced(ts: seq<Trace>)
    ensures Balanced(LogOf(ts))
  {
    hide Balanced, Rooted, LogOf;
    if ts == [] {
      NothingLogged();
    } else {
      assert ts == [ts[0]] + ts[1..];
      LogOfAppend([ts[0]], ts[1..]);
      OneTrace(ts[0]);
      match ts[0] {
        case Missed(miss) => BalancedError(miss.descriptor, miss.start, miss.end);
        case Called(rule, pos, hidden, inside) =>
          LogIsBalanced(inside);
          BalancedRule(LogOf(inside), OpenEvent(rule, pos, false), CloseEvent(0, hidden));
          RootedIsBalanced(LogOf([ts[0]]));
      }
      LogIsBalanced(ts[1..]);
      BalancedAppend(LogOf([ts[0]]), LogOf(ts[1..]));
    }
  }

  lemma RootedIsBalanced(log: seq<Event>)
    requires Rooted(log)
    ensures Balanced(log)
  {
  }

  lemma NothingLogged()
    ensures Balanced(LogOf([]))
  {
    forall k | 0 <= k <= 0 ensures Depth(LogOf([])[..k]) >= 0 { assert LogOf([])[..k] == []; }
  }

  lemma {:induction false} ErasedDepth(log: seq<Event>)
    ensures Depth(Erased(log)) == Depth(log)
  {
    if log != [] {
      ErasedPrefix(log, |log| - 1);
      ErasedDepth(log[..|log| - 1]);
    }
  }

  lemma ErasedRooted(log: seq<Event>)
    requires Rooted(Erased(log))
    ensures Rooted(log)
  {
    ErasedDepth(log);
    forall k | 0 <= k <= |log| ensures Depth(log[..k]) == Depth(Erased(log)[..k]) {
      ErasedPrefix(log, k);
      ErasedDepth(log[..k]);
    }
    forall x | x in log ensures (x.OpenEvent? && !x.hidden) || x.CloseEvent? || x.ErrorEvent? {
      var k :| 0 <= k < |log| && log[k] == x;
      assert Erased(log)[k] in Erased(log);
    }
  }

  /** The log that a rule call leaves. */
  lemma CallIsRooted(log: seq<Event>, t: Trace)
    requires t.Called? && Erased(log) == LogOf([t])
    ensures Rooted(log)
  {
    hide Rooted, Balanced;
    OneTrace(t);
    LogIsBalanced(t.inside);
    BalancedRule(LogOf(t.inside), OpenEvent(t.rule, t.pos, false), CloseEvent(0, t.hidden));
    ErasedRooted(log);
  }

  // ---------- what a call leaves behind ----------

  /** The buffer has grown by the events of the parsed forest, or on failure of what a failed call leaves;
      what was there before is unchanged. */
  ghost predicate Refines(r: Result, residue: seq<Tree>, out: Outcome, before: seq<Event>, after: seq<Event>) {
    && before <= after
    && match r
       case Parsed(pos, forest) => out == Ok(pos) && after == before + Flatten(forest, |before|)
       case Failed => out == Fail && after == before + Flatten(residue, |before|)
       case Aborted => out == Error && after == before + Flatten(residue, |before|)
       case Diverged => out == OutOfFuel
  }

  /** A tracked call has added exactly the log of its trace, an untracked one nothing. */
  ghost predicate Logs(track: bool, r: Result, ts: seq<Trace>, before: seq<Event>, after: seq<Event>) {
    before <= after && if track then r.Diverged? || Erased(after[|before|..]) == LogOf(ts) else after == before
  }

  lemma NothingLoggedYet(track: bool, r: Result, log: seq<Event>)
    ensures Logs(track, r, [], log, log)
  {
    assert log[|log|..] == [];
  }

  lemma LogsTwice(track: bool, r: Result, s: Result, ts: seq<Trace>, us: seq<Trace>,
                  a: seq<Event>, b: seq<Event>, c: seq<Event>)
    requires Logs(track, r, ts, a, b) && Logs(track, s, us, b, c) && (r.Diverged? ==> s.Diverged?)
    ensures Logs(track, s, ts + us, a, c)
  {
    hide LogOf, Erased;
    if track && !s.Diverged? {
      assert c[|a|..] == b[|a|..] + c[|b|..];
      ErasedAppend(b[|a|..], c[|b|..]);
      LogOfAppend(ts, us);
    }
  }

  lemma LogsOneMiss(track: bool, r: Result, miss: Miss, before: seq<Event>, after: seq<Event>)
    requires after == if track then before + [ErrorEvent(miss.descriptor, miss.start, miss.end)] else before
    ensures Logs(track, r, [Missed(miss)], before, after)
  {
    OneTrace(Missed(miss));
    if track {
      assert after[|before|..] == [ErrorEvent(miss.descriptor, miss.start, miss.end)];
    }
  }

  /** What a rule adds to the log, given what its body added. */
  lemma LogsCall(track: bool, r: Result, id: nat, pos: nat, close: Event, ts: seq<Trace>,
                 before: seq<Event>, inside: seq<Event>, after: seq<Event>)
    requires close.CloseEvent?
    requires Logs(track, r, ts, if track then before + [OpenEvent(id, pos, false)] else before, inside)
    requires after == if track then inside + [close] else inside
    ensures Logs(track, r, [Called(id, pos, close.hidden, ts)], before, after)
  {
    hide LogOf;
    OneTrace(Called(id, pos, close.hidden, ts));
    if track {
      var open := OpenEvent(id, pos, false);
      var inner := inside[|before| + 1..];
      assert inside == before + [open] + inner;
      assert after[|before|..] == [open] + inner + [close];
      ErasedAppend([open] + inner, [close]);
      ErasedAppend([open], inner);
    }
  }

  lemma LogsDiverged(track: bool, r: Result, ts: seq<Trace>, us: seq<Trace>, before: seq<Event>, after: seq<Event>)
    requires Logs(track, r, ts, before, after)
    ensures Logs(track, Diverged, us, before, after)
  {
  }

  /** Only the result up to running out of fuel matters. */
  lemma LogsSame(track: bool, r: Result, s: Result, ts: seq<Trace>, before: seq<Event>, after: seq<Event>)
    requires Logs(track, r, ts, before, after) && (r.Diverged? ==> s.Diverged?)
    ensures Logs(track, s, ts, before, after)
  {
  }

  class ParseState {
    var events: seq<Event>
    var errors: seq<Event>
    const trackErrors: bool

    constructor (trackErrors: bool)
      ensures events == [] && errors == [] && this.trackErrors == trackErrors
    {
      events, errors := [], [];
      this.trackErrors := trackErrors;
    }

    method LogError(d: Descriptor, start: nat, end: nat)
      modifies this`errors
      ensures errors == if trackErrors then old(errors) + [ErrorEvent(d, start, end)] else old(errors)
    {
      if trackErrors { errors := errors + [ErrorEvent(d, start, end)]; }
    }

    method Run(e: Env, p: Peg, pos: nat, fuel: nat) returns (out: Outcome)
      requires e.Valid() && pos <= |e.input|
      requires MacroMade(e.g) && Choices(p)
      modifies this`events, this`errors
      ensures Refines(Parse(e, p, pos, fuel), Residue(e, p, pos, fuel), out, old(events), events)
      ensures Logs(trackErrors, Parse(e, p, pos, fuel), Traces(e, p, pos, fuel), old(errors), errors)
      decreases fuel, p, 1
    {
      hide Logs, LeftBehind;
      match p
      case Seq(ps) => out := RunSeq(e, ps, pos, fuel);
      case Ord(ps) => out := RunOrd(e, ps, pos, fuel);
      case Pattern(regex) => out := RunPattern(e, regex, pos, fuel);
      case Literal(literal) => out := RunLiteral(e, literal, pos, fuel);
      case NonTerminal(id) =>
        if fuel == 0 {
          NothingLoggedYet(trackErrors, Diverged, errors);
          out := OutOfFuel;
        } else {
          out := RunRule(e, id, pos, fuel);
        }
      case Neg(q) => out := RunNeg(e, q, pos, fuel);
      case Cut(q) =>
        out := Run(e, q, pos, fuel);
        if out == Fail { out := Error; }
        LogsSame(trackErrors, Parse(e, q, pos, fuel), Parse(e, p, pos, fuel), Traces(e, q, pos, fuel), old(errors),
            errors);
      case Star(q) => out := RunStar(e, q, pos, fuel);
    }

    method RunPattern(e: Env, regex: string, pos: nat, ghost fuel: nat) returns (out: Outcome)
      requires e.Valid() && pos <= |e.input|
      modifies this`events, this`errors
      ensures Refines(Parse(e, Pattern(regex), pos, fuel), [], out, old(events), events)
      ensures Logs(trackErrors, Parse(e, Pattern(regex), pos, fuel), Traces(e, Pattern(regex), pos, fuel),
                   old(errors), errors)
    {
      hide Logs, Flatten;
      NothingYet(Failed, |events|);
      assert events + [] == events;
      match e.lex.find(regex, e.input[pos..])
      case Match(start, end) =>
        if start < end { events := events + [PatternEvent(pos, pos + end)]; }
        OneLeafEvent(PatternLeaf(pos, pos + end), |old(events)|);
        NothingLoggedYet(trackErrors, Parse(e, Pattern(regex), pos, fuel), errors);
        out := Ok(Skip(e, pos + end));
      case NoMatch =>
        LogError(ExpectedPattern(regex), pos, pos);
        LogsOneMiss(trackErrors, Failed, Miss(ExpectedPattern(regex), pos, pos), old(errors), errors);
        out := Fail;
    }

    method RunLiteral(e: Env, literal: string, pos: nat, ghost fuel: nat) returns (out: Outcome)
      requires e.Valid() && pos <= |e.input|
      modifies this`events, this`errors
      ensures Refines(Parse(e, Literal(literal), pos, fuel), [], out, old(events), events)
      ensures Logs(trackErrors, Parse(e, Literal(literal), pos, fuel), Traces(e, Literal(literal), pos, fuel),
                   old(errors), errors)
    {
      hide Logs, Flatten;
      NothingYet(Failed, |events|);
      assert events + [] == events;
      if LiteralMatches(e, literal, pos) {
        var end := LiteralEnd(e, literal, pos);
        if pos < end { events := events + [LiteralEvent(literal, pos, end)]; }
        OneLeafEvent(LiteralLeaf(literal, pos, end), |old(events)|);
        NothingLoggedYet(trackErrors, Parse(e, Literal(literal), pos, fuel), errors);
        out := Ok(Skip(e, end));
      } else {
        LogError(ExpectedLiteral(literal), pos, pos);
        LogsOneMiss(trackErrors, Failed, Miss(ExpectedLiteral(literal), pos, pos), old(errors), errors);
        out := Fail;
      }
    }

    method RunSeq(e: Env, ps: Pegs, start: nat, fuel: nat) returns (out: Outcome)
      requires e.Valid() && start <= |e.input|
      requires MacroMade(e.g) && AllChoices(ps)
      modifies this`events, this`errors
      ensures Refines(ParseSeq(e, ps, start, fuel), [], out, old(events), events)
      ensures Logs(trackErrors, ParseSeq(e, ps, start, fuel), TracesSeq(e, ps, start, fuel), old(errors), errors)
      decreases fuel, ps, 0
    {
      hide Logs, Parse, ParseSeq, Traces, TracesSeq, Residue, Flatten, Prepend;
      var pos: nat := start;
      var idx := |events|;
      ghost var forest: seq<Tree> := [];
      ghost var trace: seq<Trace> := [];
      var left := ps;
      NothingLoggedYet(trackErrors, Parsed(pos, []), errors);
      NothingYet(ParseSeq(e, ps, start, fuel), |events|);
      assert [] + TracesSeq(e, ps, start, fuel) == TracesSeq(e, ps, start, fuel);
      while left.Then?
        invariant pos <= |e.input|
        invariant (left == ps || left < ps) && AllChoices(left)
        invariant events == old(events) + Flatten(forest, |old(events)|)
        invariant ParseSeq(e, ps, start, fuel) == Prepend(forest, ParseSeq(e, left, pos, fuel))
        invariant TracesSeq(e, ps, start, fuel) == trace + TracesSeq(e, left, pos, fuel)
        invariant Logs(trackErrors, Parsed(pos, []), trace, old(errors), errors)
        decreases left
      {
        ghost var logged := errors;
        ghost var first, more := Parse(e, left.first, pos, fuel), Traces(e, left.first, pos, fuel);
        SeqUnfolds(e, left, pos, fuel, forest);
        SeqTraceUnfolds(e, left, pos, fuel, trace);
        out := Run(e, left.first, pos, fuel);
        LogsTwice(trackErrors, Parsed(pos, []), first, trace, more, old(errors), logged, errors);
        if !out.Ok? {
          events := events[..idx];
          assert events == old(events) + [];
          NothingYet(first, |old(events)|);
          return;
        }
        FlattenAppend(forest, first.forest, |old(events)|);
        forest := forest + first.forest;
        LogsSame(trackErrors, first, Parsed(out.pos, []), trace + more, old(errors), errors);
        trace := trace + more;
        pos := out.pos;
        left := left.rest;
      }
      SeqEnds(e, left, pos, fuel, forest);
      SeqTraceEnds(e, left, pos, fuel, trace);
      LogsSame(trackErrors, Parsed(pos, []), Parsed(pos, forest), trace, old(errors), errors);
      out := Ok(pos);
    }

    method RunOrd(e: Env, ps: Pegs, pos: nat, fuel: nat) returns (out: Outcome)
      requires e.Valid() && pos <= |e.input|
      requires MacroMade(e.g) && Choices(Ord(ps))
      modifies this`events, this`errors
      ensures Refines(ParseOrd(e, ps, pos, fuel), [], out, old(events), events)
      ensures Logs(trackErrors, ParseOrd(e, ps, pos, fuel), TracesOrd(e, ps, pos, fuel), old(errors), errors)
      decreases fuel, ps, 0
    {
      hide Logs, Parse, ParseOrd, Traces, TracesOrd, Residue, Flatten;
      var idx := |events|;
      ghost var trace: seq<Trace> := [];
      var left := ps;
      NothingLoggedYet(trackErrors, Failed, errors);
      NothingYet(Failed, |events|);
      assert [] + TracesOrd(e, ps, pos, fuel) == TracesOrd(e, ps, pos, fuel);
      while left.Then?
        invariant (left == ps || left < ps) && AllChoices(left)
        invariant events == old(events)
        invariant ParseOrd(e, ps, pos, fuel) == ParseOrd(e, left, pos, fuel)
        invariant TracesOrd(e, ps, pos, fuel) == trace + TracesOrd(e, left, pos, fuel)
        invariant Logs(trackErrors, Failed, trace, old(errors), errors)
        decreases left
      {
        ghost var logged := errors;
        ghost var first, more := Parse(e, left.first, pos, fuel), Traces(e, left.first, pos, fuel);
        OrdUnfolds(e, left, pos, fuel, trace);
        out := Run(e, left.first, pos, fuel);
        LogsTwice(trackErrors, Failed, first, trace, more, old(errors), logged, errors);
        if out.Ok? { return; }
        events := events[..idx];
        assert events == old(events) + [];
        if out != Fail { return; }
        trace := trace + more;
        left := left.rest;
      }
      OrdEnds(e, left, pos, fuel, trace);
      out := Fail;
    }

    method RunStar(e: Env, q: Peg, start: nat, fuel: nat) returns (out: Outcome)
      requires e.Valid() && start <= |e.input|
      requires MacroMade(e.g) && Choices(q)
      modifies this`events, this`errors
      ensures Refines(ParseStar(e, q, start, fuel), ResidueStar(e, q, start, fuel), out, old(events), events)
      ensures Logs(trackErrors, ParseStar(e, q, start, fuel), TracesStar(e, q, start, fuel), old(errors), errors)
      decreases fuel, q, 2
    {
      hide Logs, Parse, ParseStar, Traces, TracesStar, Residue, ResidueStar, Flatten, FlattenTree, Prepend, StarAt;
      var pos: nat := start;
      ghost var forest: seq<Tree> := [];
      ghost var trace: seq<Trace> := [];
      var left: nat := fuel;
      NothingLoggedYet(trackErrors, Parsed(pos, []), errors);
      NothingYet(Failed, |events|);
      StarBegins(e, q, start, fuel);
      while left > 0
        invariant left <= fuel && pos <= |e.input|
        invariant events == old(events) + Flatten(forest, |old(events)|)
        invariant StarAt(e, q, start, fuel, pos, left, forest, trace)
        invariant Logs(trackErrors, Parsed(pos, []), trace, old(errors), errors)
        decreases left
      {
        ghost var logged := errors;
        ghost var first, more := Parse(e, q, pos, left), Traces(e, q, pos, left);
        var idx := |events|;
        StarGoesOn(e, q, start, fuel, pos, left, forest, trace);
        out := Run(e, q, pos, left);
        LogsTwice(trackErrors, Parsed(pos, []), first, trace, more, old(errors), logged, errors);
        if !out.Ok? {
          events := events[..idx];
          LogsSame(trackErrors, first, ParseStar(e, q, start, fuel), trace + more, old(errors), errors);
          if out == Fail { out := Ok(pos); }
          return;
        }
        LogsSame(trackErrors, first, Parsed(out.pos, []), trace + more, old(errors), errors);
        FlattenAppend(forest, first.forest, |old(events)|);
        forest, trace := forest + first.forest, trace + more;
        pos, left := out.pos, left - 1;
      }
      StarStarves(e, q, start, fuel, pos, forest, trace);
      LogsDiverged(trackErrors, Parsed(pos, []), trace, TracesStar(e, q, start, fuel), old(errors), errors);
      out := OutOfFuel;
    }

    method RunNeg(e: Env, q: Peg, pos: nat, fuel: nat) returns (out: Outcome)
      requires e.Valid() && pos <= |e.input|
      requires MacroMade(e.g) && Choices(q)
      modifies this`events, this`errors
      ensures Refines(Parse(e, Neg(q), pos, fuel), [], out, old(events), events)
      ensures Logs(trackErrors, Parse(e, Neg(q), pos, fuel), Traces(e, Neg(q), pos, fuel), old(errors), errors)
      decreases fuel, q, 2
    {
      hide LogOf, Erased, Residue;
      var idx := |events|;
      var errIdx := |errors|;
      out := Run(e, q, pos, fuel);
      events := events[..idx];
      assert events == old(events);
      if trackErrors { errors := errors[..errIdx]; }
      assert errors == old(errors);
      NothingYet(Failed, |events|);
      assert events + [] == events;
      hide Logs;
      NothingLoggedYet(trackErrors, Parse(e, Neg(q), pos, fuel), errors);
      match out
      case Ok(newPos) =>
        LogError(Unexpected, pos, newPos);
        LogsOneMiss(trackErrors, Failed, Miss(Unexpected, pos, newPos), old(errors), errors);
        out := Fail;
      case OutOfFuel =>
      case _ => out := Ok(pos);
    }

    /** The function generated for a rule. */
    method RunRule(e: Env, id: nat, pos: nat, fuel: nat) returns (out: Outcome)
      requires e.Valid() && pos <= |e.input| && fuel > 0
      requires MacroMade(e.g)
      modifies this`events, this`errors
      ensures Refines(Parse(e, NonTerminal(id), pos, fuel), Residue(e, NonTerminal(id), pos, fuel), out,
                      old(events), events)
      ensures Logs(trackErrors, Parse(e, NonTerminal(id), pos, fuel), Traces(e, NonTerminal(id), pos, fuel),
                   old(errors), errors)
      decreases fuel, NonTerminal(id), 0
    {
      hide Logs, FlattenTree, Flatten, LogOf, Erased, Parse, Traces, Residue, LeftBehind;
      var openIdx := |events|;
      var openEvent := OpenEvent(id, pos, false);
      events := events + [openEvent];
      if trackErrors { errors := errors + [openEvent]; }

      out := Run(e, e.g(id).body, pos, fuel - 1);

      ghost var body, inside := events, errors;
      ghost var r := Parse(e, e.g(id).body, pos, fuel - 1);
      ghost var kids, ts := LeftBehind(e, e.g(id).body, pos, fuel - 1), Traces(e, e.g(id).body, pos, fuel - 1);
      CallUnfolds(e, id, pos, fuel);
      var closeEvent := CloseRule(e.g(id).hidden, openIdx);
      RuleEvents(r, kids, e.g(id).hidden, id, pos, old(events), body, events);
      LogsCall(trackErrors, r, id, pos, closeEvent, ts, old(errors), inside, errors);
      LogsRule(trackErrors, r, Parse(e, NonTerminal(id), pos, fuel), Called(id, pos, closeEvent.hidden, ts),
               e.g(id).hidden && IsOneNode(kids), old(errors), errors);
    }

    /** Pushes the close event; a hidden rule whose body is one rule node is hidden after the fact. */
    method CloseRule(hidden: bool, openIdx: nat) returns (closeEvent: Event)
      requires openIdx < |events| && events[openIdx].OpenEvent? && !events[openIdx].hidden
      modifies this`events, this`errors
      ensures closeEvent == CloseEvent(openIdx, Collapses(hidden, old(events), openIdx))
      ensures events == old(events)[openIdx := Marked(old(events)[openIdx], closeEvent.hidden)] + [closeEvent]
      ensures errors == if trackErrors then old(errors) + [closeEvent] else old(errors)
    {
      closeEvent := CloseEvent(openIdx, false);
      if hidden {
        var last := events[|events| - 1];
        if last.CloseEvent? && last.openIdx == openIdx + 1 {
          closeEvent := CloseEvent(openIdx, true);
          if events[openIdx].OpenEvent? {
            events := events[openIdx := Marked(events[openIdx], true)];
          }
        }
      }
      events := events + [closeEvent];
      if trackErrors { errors := errors + [closeEvent]; }
    }
  }

  function Marked(event: Event, hidden: bool): Event {
    match event
    case OpenEvent(rule, pos, _) => OpenEvent(rule, pos, hidden)
    case other => other
  }

  predicate Collapses(hidden: bool, events: seq<Event>, openIdx: nat)
    requires events != []
  {
    var last := events[|events| - 1];
    hidden && last.CloseEvent? && last.openIdx == openIdx + 1
  }

  lemma OneLeafEvent(leaf: Tree, base: nat)
    requires !leaf.Node?
    ensures Flatten([leaf], base) == FlattenTree(leaf, base)
  {
    assert [leaf][1..] == [];
  }

  lemma NothingYet(r: Result, base: nat)
    ensures r == Prepend([], r) && Flatten([], base) == []
  {
    if r.Parsed? { assert [] + r.forest == r.forest; }
  }

  lemma PrependTwice(a: seq<Tree>, b: seq<Tree>, r: Result)
    ensures Prepend(a, Prepend(b, r)) == Prepend(a + b, r)
  {
    if r.Parsed? { assert a + (b + r.forest) == a + b + r.forest; }
  }

  lemma SeqUnfolds(e: Env, ps: Pegs, pos: nat, fuel: nat, forest: seq<Tree>)
    requires e.Valid() && ps.Then? && pos <= |e.input|
    ensures var first := Parse(e, ps.first, pos, fuel);
            Prepend(forest, ParseSeq(e, ps, pos, fuel))
            == if first.Parsed? then Prepend(forest + first.forest, ParseSeq(e, ps.rest, first.pos, fuel)) else first
  {
    var first := Parse(e, ps.first, pos, fuel);
    if first.Parsed? { PrependTwice(forest, first.forest, ParseSeq(e, ps.rest, first.pos, fuel)); }
  }

  lemma SeqEnds(e: Env, ps: Pegs, pos: nat, fuel: nat, forest: seq<Tree>)
    requires e.Valid() && pos <= |e.input| && ps.Done?
    ensures Prepend(forest, ParseSeq(e, ps, pos, fuel)) == Parsed(pos, forest)
  {
    assert forest + [] == forest;
  }

  lemma SeqTraceUnfolds(e: Env, ps: Pegs, pos: nat, fuel: nat, trace: seq<Trace>)
    requires e.Valid() && ps.Then? && pos <= |e.input|
    ensures var first := Parse(e, ps.first, pos, fuel);
            trace + TracesSeq(e, ps, pos, fuel)
            == trace + Traces(e, ps.first, pos, fuel)
               + if first.Parsed? then TracesSeq(e, ps.rest, first.pos, fuel) else []
    ensures !Parse(e, ps.first, pos, fuel).Parsed? ==>
              trace + TracesSeq(e, ps, pos, fuel) == trace + Traces(e, ps.first, pos, fuel)
  {
    hide Parse, Traces;
  }

  lemma SeqTraceEnds(e: Env, ps: Pegs, pos: nat, fuel: nat, trace: seq<Trace>)
    requires e.Valid() && pos <= |e.input| && ps.Done?
    ensures trace + TracesSeq(e, ps, pos, fuel) == trace
  {
  }

  lemma OrdUnfolds(e: Env, ps: Pegs, pos: nat, fuel: nat, trace: seq<Trace>)
    requires e.Valid() && ps.Then? && pos <= |e.input|
    ensures var first := Parse(e, ps.first, pos, fuel);
            if first.Failed? then
              && ParseOrd(e, ps, pos, fuel) == ParseOrd(e, ps.rest, pos, fuel)
              && trace + TracesOrd(e, ps, pos, fuel)
                 == trace + Traces(e, ps.first, pos, fuel) + TracesOrd(e, ps.rest, pos, fuel)
            else
              && ParseOrd(e, ps, pos, fuel) == first
              && trace + TracesOrd(e, ps, pos, fuel) == trace + Traces(e, ps.first, pos, fuel)
  {
    hide Parse, Traces;
  }

  lemma OrdEnds(e: Env, ps: Pegs, pos: nat, fuel: nat, trace: seq<Trace>)
    requires e.Valid() && pos <= |e.input| && ps.Done?
    ensures ParseOrd(e, ps, pos, fuel) == Failed && trace + TracesOrd(e, ps, pos, fuel) == trace
  {
  }

  /** Where a repetition stands: what it has parsed and tried so far, and from where it goes on. */
  ghost predicate StarAt(e: Env, q: Peg, start: nat, fuel: nat, pos: nat, left: nat, forest: seq<Tree>,
                         trace: seq<Trace>)
    requires e.Valid() && start <= |e.input| && pos <= |e.input|
  {
    && ParseStar(e, q, start, fuel) == Prepend(forest, ParseStar(e, q, pos, left))
    && TracesStar(e, q, start, fuel) == trace + TracesStar(e, q, pos, left)
    && ResidueStar(e, q, start, fuel) == forest + ResidueStar(e, q, pos, left)
  }

  lemma StarBegins(e: Env, q: Peg, start: nat, fuel: nat)
    requires e.Valid() && start <= |e.input|
    ensures StarAt(e, q, start, fuel, start, fuel, [], [])
  {
    hide ParseStar, TracesStar, ResidueStar;
    NothingYet(ParseStar(e, q, start, fuel), 0);
  }

  lemma StarGoesOn(e: Env, q: Peg, start: nat, fuel: nat, pos: nat, left: nat, forest: seq<Tree>, trace: seq<Trace>)
    requires e.Valid() && start <= |e.input| && pos <= |e.input| && left > 0
    requires StarAt(e, q, start, fuel, pos, left, forest, trace)
    ensures var first, more := Parse(e, q, pos, left), Traces(e, q, pos, left);
            if first.Parsed? then
              StarAt(e, q, start, fuel, first.pos, left - 1, forest + first.forest, trace + more)
            else
              && ParseStar(e, q, start, fuel) == (if first.Failed? then Parsed(pos, forest) else first)
              && TracesStar(e, q, start, fuel) == trace + more
              && ResidueStar(e, q, start, fuel) == forest
  {
    hide Parse, Traces, ParseStar, TracesStar, ResidueStar;
    StarOnce(e, q, pos, left);
    var first := Parse(e, q, pos, left);
    if first.Parsed? {
      PrependTwice(forest, first.forest, ParseStar(e, q, first.pos, left - 1));
      assert trace + (Traces(e, q, pos, left) + TracesStar(e, q, first.pos, left - 1))
             == trace + Traces(e, q, pos, left) + TracesStar(e, q, first.pos, left - 1);
      assert forest + (first.forest + ResidueStar(e, q, first.pos, left - 1))
             == forest + first.forest + ResidueStar(e, q, first.pos, left - 1);
    } else {
      assert forest + [] == forest;
    }
  }

  lemma StarOnce(e: Env, q: Peg, pos: nat, left: nat)
    requires e.Valid() && pos <= |e.input| && left > 0
    ensures var first, more := Parse(e, q, pos, left), Traces(e, q, pos, left);
            if first.Parsed? then
              && ParseStar(e, q, pos, left) == Prepend(first.forest, ParseStar(e, q, first.pos, left - 1))
              && TracesStar(e, q, pos, left) == more + TracesStar(e, q, first.pos, left - 1)
              && ResidueStar(e, q, pos, left) == first.forest + ResidueStar(e, q, first.pos, left - 1)
            else
              && ParseStar(e, q, pos, left) == (if first.Failed? then Parsed(pos, []) else first)
              && TracesStar(e, q, pos, left) == more && ResidueStar(e, q, pos, left) == []
  {
    hide Parse, Traces;
    assert Traces(e, q, pos, left) + [] == Traces(e, q, pos, left);
  }

  lemma StarStarves(e: Env, q: Peg, start: nat, fuel: nat, pos: nat, forest: seq<Tree>, trace: seq<Trace>)
    requires e.Valid() && start <= |e.input| && pos <= |e.input|
    requires StarAt(e, q, start, fuel, pos, 0, forest, trace)
    ensures ParseStar(e, q, start, fuel) == Diverged
  {
  }

  lemma CallUnfolds(e: Env, id: nat, pos: nat, fuel: nat)
    requires e.Valid() && pos <= |e.input| && fuel > 0
    ensures var body := e.g(id).body;
            var r, kids := Parse(e, body, pos, fuel - 1), LeftBehind(e, body, pos, fuel - 1);
            var hidden := e.g(id).hidden && IsOneNode(kids);
            && kids == (if r.Parsed? then r.forest else Residue(e, body, pos, fuel - 1))
            && Parse(e, NonTerminal(id), pos, fuel)
               == (if r.Parsed? then Parsed(r.pos, [Node(id, pos, hidden, kids)]) else r)
            && Residue(e, NonTerminal(id), pos, fuel) == [Node(id, pos, hidden, kids)]
            && Traces(e, NonTerminal(id), pos, fuel) == [Called(id, pos, hidden, Traces(e, body, pos, fuel - 1))]
  {
  }

  /** Whether a rule is hidden is only settled when its body has ended. */
  lemma LogsRule(track: bool, r: Result, s: Result, call: Trace, hidden: bool, before: seq<Event>, after: seq<Event>)
    requires call.Called? && Logs(track, r, [call], before, after) && (r.Diverged? <==> s.Diverged?)
    requires !r.Diverged? ==> call.hidden == hidden
    ensures Logs(track, s, [call.(hidden := hidden)], before, after)
  {
    hide LogOf, Erased;
  }

  /** Closing a rule: the events of its node, with the hiding decided by the last event. */
  lemma {:induction false} RuleEvents(r: Result, kids: seq<Tree>, hidden: bool, id: nat, pos: nat,
                                      before: seq<Event>, body: seq<Event>, after: seq<Event>)
    requires before + [OpenEvent(id, pos, false)] <= body
    requires !r.Diverged? ==> body == before + [OpenEvent(id, pos, false)] + Flatten(kids, |before| + 1)
    requires var collapse := Collapses(hidden, body, |before|);
             after == body[|before| := OpenEvent(id, pos, collapse)] + [CloseEvent(|before|, collapse)]
    ensures before <= after
    ensures !r.Diverged? ==>
              && Collapses(hidden, body, |before|) == (hidden && IsOneNode(kids))
              && after == before + Flatten([Node(id, pos, hidden && IsOneNode(kids), kids)], |before|)
  {
    if !r.Diverged? {
      var inner := Flatten(kids, |before| + 1);
      if kids != [] {
        LastClosesFirst(kids, |before| + 1);
        assert body[|body| - 1] == inner[|inner| - 1];
      }
      var node := Node(id, pos, hidden && IsOneNode(kids), kids);
      assert Flatten([node][1..], |before| + |FlattenTree(node, |before|)|) == [];
      assert Flatten([node], |before|) == FlattenTree(node, |before|);
      assert after == before + [OpenEvent(id, pos, node.hidden)] + inner + [CloseEvent(|before|, node.hidden)];
    }
  }
}
