/** How the error log of a failed parse becomes the reported errors: those at the furthest start
    position, each with the stack of rule labels it was found under; and which failed tries of the parse
    they are. */
module ParseErrors {
  import opened Peg
  import opened PegTrace
  import opened PegEngine

  datatype ParseError = ParseError(descriptor: Descriptor, start: nat, end: nat, context: seq<Entry>)

  /** The labels on the context stack after these log entries: closes of hidden rules do not pop. */
  function Context(log: seq<Event>): seq<Entry> {
    if log == [] then [] else
    var before := Context(log[..|log| - 1]);
    match log[|log| - 1]
    case OpenEvent(rule, pos, false) => before + [Entry(rule, pos)]
    case CloseEvent(_, false) => if before == [] then [] else before[..|before| - 1]
    case _ => before
  }

  /** The rules that are really open after these log entries. */
  function OpenRules(log: seq<Event>): seq<Entry> {
    if log == [] then [] else
    var before := OpenRules(log[..|log| - 1]);
    match log[|log| - 1]
    case OpenEvent(rule, pos, _) => before + [Entry(rule, pos)]
    case CloseEvent(_, _) => if before == [] then [] else before[..|before| - 1]
    case _ => before
  }

  function HiddenCloses(log: seq<Event>): nat {
    if log == [] then 0 else
    var last := log[|log| - 1];
    HiddenCloses(log[..|log| - 1]) + if last.CloseEvent? && last.hidden then 1 else 0
  }

  function FurthestStart(log: seq<Event>): (m: nat)
    ensures forall k | 0 <= k < |log| && log[k].ErrorEvent? :: log[k].start <= m
    ensures m == 0 || exists k | 0 <= k < |log| :: log[k].ErrorEvent? && log[k].start == m
  {
    if log == [] then 0 else
    var last := log[|log| - 1];
    var before := FurthestStart(log[..|log| - 1]);
    if last.ErrorEvent? && last.start > before then last.start else before
  }

  /** The errors at start position m, in log order, with their contexts. */
  function ErrorsAt(log: seq<Event>, m: nat): seq<ParseError> {
    if log == [] then [] else
    var init := log[..|log| - 1];
    match log[|log| - 1]
    case ErrorEvent(descriptor, start, end) =>
      ErrorsAt(init, m) + if start == m then [ParseError(descriptor, start, end, Context(init))] else []
    case _ => ErrorsAt(init, m)
  }

  /** a is what is left of b after dropping some entries. */
  predicate Subsequence(a: seq<Entry>, b: seq<Entry>) {
    a == [] ||
    (b != [] &&
     if a[|a| - 1] == b[|b| - 1] then Subsequence(a[..|a| - 1], b[..|b| - 1]) else Subsequence(a, b[..|b| - 1]))
  }

  lemma {:induction false} DropFromFirst(a: seq<Entry>, x: Entry, b: seq<Entry>)
    requires Subsequence(a + [x], b)
    ensures Subsequence(a, b)
    decreases |b|, 0
  {
    assert (a + [x])[..|a|] == a;
    if x == b[|b| - 1] {
      DropLast(a, b[..|b| - 1], x);
    } else {
      DropFromFirst(a, x, b[..|b| - 1]);
      DropLast(a, b[..|b| - 1], b[|b| - 1]);
    }
    assert b == b[..|b| - 1] + [b[|b| - 1]];
  }

  /** Growing the longer one keeps a subsequence. */
  lemma {:induction false} DropLast(a: seq<Entry>, b: seq<Entry>, y: Entry)
    requires Subsequence(a, b)
    ensures Subsequence(a, b + [y])
    decreases |b|, 1
  {
    assert (b + [y])[..|b|] == b;
    if a != [] && a[|a| - 1] == y {
      var x := a[|a| - 1];
      assert a == a[..|a| - 1] + [x];
      DropFromFirst(a[..|a| - 1], x, b);
    }
  }

  lemma SubsequencePush(a: seq<Entry>, b: seq<Entry>, x: Entry)
    requires Subsequence(a, b)
    ensures Subsequence(a + [x], b + [x])
  {
    assert (a + [x])[..|a|] == a && (b + [x])[..|b|] == b;
  }

  lemma SubsequencePop(a: seq<Entry>, b: seq<Entry>)
    requires Subsequence(a, b) && a != []
    ensures b != [] && Subsequence(a[..|a| - 1], b[..|b| - 1])
  {
    var x := a[|a| - 1];
    assert a == a[..|a| - 1] + [x];
    if x != b[|b| - 1] { DropFromFirst(a[..|a| - 1], x, b[..|b| - 1]); }
  }

  /** In a balanced log the open rules always are what the depth says, every one of them is on the
      context stack in order, and the stack holds one stale label more per hidden close. */
  lemma {:induction false} ContextCoversOpenRules(log: seq<Event>, k: nat)
    requires Balanced(log) && k <= |log|
    ensures |OpenRules(log[..k])| == Depth(log[..k])
    ensures |Context(log[..k])| == Depth(log[..k]) + HiddenCloses(log[..k])
    ensures Subsequence(OpenRules(log[..k]), Context(log[..k]))
    decreases k
  {
    if k == 0 {
      assert log[..0] == [];
    } else {
      ContextCoversOpenRules(log, k - 1);
      assert log[..k][..k - 1] == log[..k - 1];
      assert Depth(log[..k]) >= 0;
      ContextStep(log[..k]);
    }
  }

  lemma ContextStep(log: seq<Event>)
    requires log != [] && LogEvents(log) && Depth(log) >= 0
    requires var init := log[..|log| - 1];
             && |OpenRules(init)| == Depth(init)
             && |Context(init)| == Depth(init) + HiddenCloses(init)
             && Subsequence(OpenRules(init), Context(init))
    ensures |OpenRules(log)| == Depth(log)
    ensures |Context(log)| == Depth(log) + HiddenCloses(log)
    ensures Subsequence(OpenRules(log), Context(log))
  {
    var init := log[..|log| - 1];
    var open, context := OpenRules(init), Context(init);
    match log[|log| - 1] {
      case OpenEvent(rule, pos, _) => SubsequencePush(open, context, Entry(rule, pos));
      case CloseEvent(_, hidden) =>
        SubsequencePop(open, context);
        assert open == open[..|open| - 1] + [open[|open| - 1]];
        DropFromFirst(open[..|open| - 1], open[|open| - 1], context);
      case _ =>
    }
  }

  /** While no hidden rule has closed, the context is exactly the rules that are open. */
  lemma {:induction false} ContextIsOpenRules(log: seq<Event>, k: nat)
    requires Balanced(log) && k <= |log|
    ensures Context(log[..k]) == OpenRules(log[..k]) <==> HiddenCloses(log[..k]) == 0
    decreases k
  {
    ContextCoversOpenRules(log, k);
    if k == 0 {
      assert log[..0] == [];
    } else {
      assert log[..k][..k - 1] == log[..k - 1];
      ContextIsOpenRules(log, k - 1);
    }
  }

  lemma {:induction false} NoneBeyond(log: seq<Event>, m: nat)
    requires m > FurthestStart(log)
    ensures ErrorsAt(log, m) == []
  {
    if log != [] { NoneBeyond(log[..|log| - 1], m); }
  }

  /** Every reported error names at least one rule. */
  lemma {:induction false} ContextsNonEmpty(log: seq<Event>, k: nat, m: nat)
    requires Rooted(log) && k <= |log|
    ensures forall error | error in ErrorsAt(log[..k], m) :: error.start == m && error.context != []
    decreases k
  {
    if k == 0 {
      assert log[..0] == [];
    } else {
      assert log[..k][..k - 1] == log[..k - 1];
      ContextsNonEmpty(log, k - 1, m);
      ContextCoversOpenRules(log, k - 1);
    }
  }

  /** Where the furthest start was logged. */
  ghost function FurthestAt(log: seq<Event>): (k: nat)
    requires FurthestStart(log) > 0
    ensures k < |log| && log[k].ErrorEvent?
  {
    var k :| 0 <= k < |log| && log[k].ErrorEvent?;
    k
  }

  ghost predicate HasError(log: seq<Event>) {
    exists k | 0 <= k < |log| :: log[k].ErrorEvent?
  }

  /** If anything was logged, something is reported. */
  lemma {:induction false} SomeAtFurthest(log: seq<Event>)
    requires HasError(log)
    ensures ErrorsAt(log, FurthestStart(log)) != []
  {
    var init := log[..|log| - 1];
    var last := log[|log| - 1];
    if !(last.ErrorEvent? && last.start >= FurthestStart(init)) {
      assert HasError(init) by {
        var k :| 0 <= k < |log| && log[k].ErrorEvent?;
        var j: nat := if k == |init| then FurthestAt(init) else k;
        assert init[j].ErrorEvent?;
      }
      SomeAtFurthest(init);
    }
  }

  /** Main result: on the log of any parse the stack never underflows, and what is returned are exactly
      the errors at the furthest start position, in log order, each under at least one rule. */
  method EventsToErrors(log: seq<Event>) returns (errors: seq<ParseError>)
    requires Rooted(log)
    ensures errors == ErrorsAt(log, FurthestStart(log))
    ensures forall error | error in errors :: error.start == FurthestStart(log) && error.context != []
    ensures HasError(log) ==> errors != []
  {
    hide Rooted, Balanced, ErrorsAt, FurthestStart, Context, HasError;
    var context: seq<Entry> := [];
    errors := [];
    var maxErrorPos := 0;
    Start(log);
    for i := 0 to |log|
      invariant context == Context(log[..i])
      invariant maxErrorPos == FurthestStart(log[..i])
      invariant errors == ErrorsAt(log[..i], maxErrorPos)
    {
      Advance(log, i);
      match log[i]
      case OpenEvent(rule, pos, false) => context := context + [Entry(rule, pos)];
      case CloseEvent(_, false) => context := context[..|context| - 1];
      case ErrorEvent(descriptor, start, end) =>
        if start > maxErrorPos {
          maxErrorPos := start;
          errors := [];
        }
        if start == maxErrorPos {
          errors := errors + [ParseError(descriptor, start, end, context)];
        }
      case _ =>
    }
    assert log[..|log|] == log;
    ContextsNonEmpty(log, |log|, maxErrorPos);
    if HasError(log) { SomeAtFurthest(log); }
  }

  lemma Start(log: seq<Event>)
    ensures Context(log[..0]) == [] && FurthestStart(log[..0]) == 0 && ErrorsAt(log[..0], 0) == []
  {
    assert log[..0] == [];
  }

  /** One round of the loop. */
  lemma Advance(log: seq<Event>, i: nat)
    requires Rooted(log) && i < |log|
    ensures log[i].CloseEvent? && !log[i].hidden ==> Context(log[..i]) != []
    ensures Context(log[..i + 1])
            == match log[i]
               case OpenEvent(rule, pos, false) => Context(log[..i]) + [Entry(rule, pos)]
               case CloseEvent(_, false) => Context(log[..i])[..|Context(log[..i])| - 1]
               case _ => Context(log[..i])
    ensures var m, next := FurthestStart(log[..i]), FurthestStart(log[..i + 1]);
            match log[i]
            case ErrorEvent(d, start, end) =>
              && next == (if start > m then start else m)
              && ErrorsAt(log[..i + 1], next)
                 == (if start > m then [] else ErrorsAt(log[..i], m))
                    + if start >= m then [ParseError(d, start, end, Context(log[..i]))] else []
            case _ => next == m && ErrorsAt(log[..i + 1], next) == ErrorsAt(log[..i], m)
  {
    assert log[..i + 1][..i] == log[..i];
    ContextCoversOpenRules(log, i);
    assert Depth(log[..i + 1]) >= 0;
    if log[i].ErrorEvent? && log[i].start > FurthestStart(log[..i]) { NoneBeyond(log[..i], log[i].start); }
  }

  // ---------- the errors of a trace ----------

  /** All errors of a log, with the rules that are really open. */
  function OpenErrors(log: seq<Event>): seq<Found> {
    if log == [] then [] else
    var init := log[..|log| - 1];
    match log[|log| - 1]
    case ErrorEvent(descriptor, start, end) => OpenErrors(init) + [Found(Miss(descriptor, start, end), OpenRules(init))]
    case _ => OpenErrors(init)
  }

  lemma {:induction false} ErasedErrors(log: seq<Event>)
    ensures OpenRules(Erased(log)) == OpenRules(log) && OpenErrors(Erased(log)) == OpenErrors(log)
  {
    if log != [] {
      ErasedPrefix(log, |log| - 1);
      ErasedErrors(log[..|log| - 1]);
    }
  }

  lemma OneMoreEvent(a: seq<Event>, x: Event)
    ensures x.OpenEvent? ==> OpenRules(a + [x]) == OpenRules(a) + [Entry(x.rule, x.pos)]
    ensures x.CloseEvent? && OpenRules(a) != [] ==> OpenRules(a + [x]) == OpenRules(a)[..|OpenRules(a)| - 1]
    ensures x.ErrorEvent? ==> OpenRules(a + [x]) == OpenRules(a)
    ensures OpenErrors(a + [x])
            == if x.ErrorEvent? then OpenErrors(a) + [Found(Miss(x.descriptor, x.start, x.end), OpenRules(a))]
               else OpenErrors(a)
  {
    assert (a + [x])[..|a|] == a;
  }

  /** The log of a trace has exactly the misses of the trace, in order, each under the calls that were open. */
  lemma {:induction false} TraceErrors(a: seq<Event>, ts: seq<Trace>, under: seq<Entry>)
    requires OpenRules(a) == under
    ensures OpenRules(a + LogOf(ts)) == under
    ensures OpenErrors(a + LogOf(ts)) == OpenErrors(a) + Misses(ts, under)
    decreases ts, 1
  {
    hide OpenRules, OpenErrors, LogOf, Misses;
    if ts == [] {
      NoTrace(under);
      assert a + [] == a;
    } else {
      var first, rest := LogOf([ts[0]]), LogOf(ts[1..]);
      assert ts == [ts[0]] + ts[1..];
      LogOfAppend([ts[0]], ts[1..]);
      MissesAppend([ts[0]], ts[1..], under);
      assert a + (first + rest) == a + first + rest;
      OneTraceErrors(a, ts[0], under);
      TraceErrors(a + first, ts[1..], under);
    }
  }

  lemma NoTrace(under: seq<Entry>)
    ensures LogOf([]) == [] && Misses([], under) == []
  {
  }

  lemma {:induction false} OneTraceErrors(a: seq<Event>, t: Trace, under: seq<Entry>)
    requires OpenRules(a) == under
    ensures OpenRules(a + LogOf([t])) == under
    ensures OpenErrors(a + LogOf([t])) == OpenErrors(a) + Misses([t], under)
    decreases t, 0
  {
    hide OpenRules, OpenErrors, LogOf;
    OneTrace(t);
    assert [t][1..] == [];
    match t {
      case Missed(miss) => OneMoreEvent(a, ErrorEvent(miss.descriptor, miss.start, miss.end));
      case Called(rule, pos, hidden, inside) =>
        var inner := under + [Entry(rule, pos)];
        var before := a + [OpenEvent(rule, pos, false)];
        OneMoreEvent(a, OpenEvent(rule, pos, false));
        TraceErrors(before, inside, inner);
        OneMoreEvent(before + LogOf(inside), CloseEvent(0, hidden));
        assert a + ([OpenEvent(rule, pos, false)] + LogOf(inside) + [CloseEvent(0, hidden)])
               == before + LogOf(inside) + [CloseEvent(0, hidden)];
        assert inner[..|under|] == under;
    }
  }

  function AtStart(fs: seq<Found>, m: nat): seq<Found> {
    if fs == [] then [] else
    AtStart(fs[..|fs| - 1], m) + if fs[|fs| - 1].miss.start == m then [fs[|fs| - 1]] else []
  }

  function FurthestMiss(fs: seq<Found>): (m: nat)
    ensures forall x | x in fs :: x.miss.start <= m
    ensures fs != [] ==> exists x :: x in fs && x.miss.start == m
  {
    if fs == [] then 0 else
    var before, last := FurthestMiss(fs[..|fs| - 1]), fs[|fs| - 1];
    assert forall x :: x in fs <==> x in fs[..|fs| - 1] || x == last;
    if last.miss.start > before then last.miss.start else before
  }

  /** The reported errors are these misses, in this order; the contexts have all the calls that each
      happened under. */
  ghost predicate Report(errors: seq<ParseError>, fs: seq<Found>) {
    && |errors| == |fs|
    && forall i | 0 <= i < |fs| :: Describes(errors[i], fs[i])
  }

  ghost predicate Describes(error: ParseError, x: Found) {
    && Miss(error.descriptor, error.start, error.end) == x.miss
    && Subsequence(x.under, error.context)
  }

  lemma OneMoreError(init: seq<Event>, x: Event, m: nat)
    ensures FurthestStart(init + [x])
            == if x.ErrorEvent? && x.start > FurthestStart(init) then x.start else FurthestStart(init)
    ensures ErrorsAt(init + [x], m)
            == if x.ErrorEvent? && x.start == m
               then ErrorsAt(init, m) + [ParseError(x.descriptor, x.start, x.end, Context(init))]
               else ErrorsAt(init, m)
  {
    assert (init + [x])[..|init|] == init;
  }

  lemma OneMoreFound(fs: seq<Found>, x: Found, m: nat)
    ensures AtStart(fs + [x], m) == AtStart(fs, m) + if x.miss.start == m then [x] else []
    ensures FurthestMiss(fs + [x]) == if x.miss.start > FurthestMiss(fs) then x.miss.start else FurthestMiss(fs)
  {
    assert (fs + [x])[..|fs|] == fs;
  }

  lemma OneMoreReported(errors: seq<ParseError>, fs: seq<Found>, error: ParseError, x: Found)
    requires Report(errors, fs) && Describes(error, x)
    ensures Report(errors + [error], fs + [x])
  {
  }

  lemma {:induction false} LoggedErrors(log: seq<Event>, k: nat, m: nat)
    requires Balanced(log) && k <= |log|
    ensures Report(ErrorsAt(log[..k], m), AtStart(OpenErrors(log[..k]), m))
    ensures FurthestStart(log[..k]) == FurthestMiss(OpenErrors(log[..k]))
    decreases k
  {
    hide Balanced, OpenRules, OpenErrors, Context, ErrorsAt, FurthestStart, FurthestMiss, AtStart, Report, Subsequence;
    if k == 0 {
      assert log[..0] == [];
      NothingReported(m);
    } else {
      var init, x := log[..k - 1], log[k - 1];
      assert log[..k] == init + [x];
      LoggedErrors(log, k - 1, m);
      ContextCoversOpenRules(log, k - 1);
      OneMoreEvent(init, x);
      OneMoreError(init, x, m);
      if x.ErrorEvent? {
        var found := Found(Miss(x.descriptor, x.start, x.end), OpenRules(init));
        OneMoreFound(OpenErrors(init), found, m);
        if x.start == m {
          OneMoreReported(ErrorsAt(init, m), AtStart(OpenErrors(init), m),
                          ParseError(x.descriptor, x.start, x.end, Context(init)), found);
        } else {
          assert AtStart(OpenErrors(init), m) + [] == AtStart(OpenErrors(init), m);
        }
      }
    }
  }

  lemma NothingReported(m: nat)
    ensures Report(ErrorsAt([], m), AtStart(OpenErrors([]), m))
    ensures FurthestStart([]) == FurthestMiss(OpenErrors([]))
  {
  }

  /** What is reported for a trace: its furthest misses. */
  lemma TraceReport(log: seq<Event>, t: Trace)
    requires t.Called? && Erased(log) == LogOf([t])
    ensures Rooted(log)
    ensures var fs := Misses([t], []);
            && FurthestStart(log) == FurthestMiss(fs)
            && Report(ErrorsAt(log, FurthestMiss(fs)), AtStart(fs, FurthestMiss(fs)))
  {
    hide Rooted, OpenErrors, ErrorsAt, FurthestStart, FurthestMiss, Report, AtStart;
    CallIsRooted(log, t);
    RootedIsBalanced(log);
    ErasedErrors(log);
    NothingOpen();
    TraceErrors([], [t], []);
    assert [] + LogOf([t]) == LogOf([t]) && [] + Misses([t], []) == Misses([t], []);
    LoggedErrors(log, |log|, FurthestMiss(Misses([t], [])));
    assert log[..|log|] == log;
  }

  lemma NothingOpen()
    ensures OpenRules([]) == [] && OpenErrors([]) == []
  {
  }

  lemma {:induction false} AtStartIs(fs: seq<Found>, m: nat, x: Found)
    ensures x in AtStart(fs, m) <==> x in fs && x.miss.start == m
  {
    if fs != [] {
      assert fs == fs[..|fs| - 1] + [fs[|fs| - 1]];
      AtStartIs(fs[..|fs| - 1], m, x);
    }
  }

  // ---------- in terms of what was tried ----------

  /** The report of a failed parse from a rule: it is at the greatest position where anything was tried and
      failed; each error is a failed try there, under the calls that led to it; each of those is an error;
      and they are in the order in which they were tried. */
  ghost predicate FurthestFailures(e: Env, root: nat, fuel: nat, errors: seq<ParseError>)
    requires e.Valid()
  {
    var p := NonTerminal(root);
    && errors != []
    && (forall x | FailedTry(e, p, 0, fuel, [], x) :: x.miss.start <= errors[0].start)
    && (forall error | error in errors ::
          error.start == errors[0].start && error.context != [] && FromTry(e, p, fuel, error))
    && (forall x | FailedTry(e, p, 0, fuel, [], x) && x.miss.start == errors[0].start :: Named(errors, x))
    && Report(errors, AtStart(Misses(Traces(e, p, 0, fuel), []), errors[0].start))
  }

  ghost predicate FromTry(e: Env, p: Peg, fuel: nat, error: ParseError)
    requires e.Valid()
  {
    exists x :: FailedTry(e, p, 0, fuel, [], x) && Describes(error, x)
  }

  ghost predicate Named(errors: seq<ParseError>, x: Found) {
    exists error :: error in errors && Describes(error, x)
  }

  lemma ReportNames(errors: seq<ParseError>, fs: seq<Found>, x: Found)
    requires Report(errors, fs) && x in fs
    ensures Named(errors, x)
  {
    var i :| 0 <= i < |fs| && fs[i] == x;
    assert errors[i] in errors && Describes(errors[i], fs[i]);
  }

  lemma ReportFrom(e: Env, p: Peg, fuel: nat, errors: seq<ParseError>, fs: seq<Found>, error: ParseError)
    requires e.Valid() && Report(errors, fs) && error in errors
    requires forall x | x in fs :: FailedTry(e, p, 0, fuel, [], x)
    ensures FromTry(e, p, fuel, error)
  {
    var i :| 0 <= i < |errors| && errors[i] == error;
    assert fs[i] in fs && Describes(errors[i], fs[i]);
  }

  lemma FurthestReport(e: Env, root: nat, fuel: nat, errors: seq<ParseError>, fs: seq<Found>)
    requires e.Valid() && fs != [] && fs == Misses(Traces(e, NonTerminal(root), 0, fuel), [])
    requires Report(errors, AtStart(fs, FurthestMiss(fs)))
    requires forall error | error in errors :: error.start == FurthestMiss(fs) && error.context != []
    ensures FurthestFailures(e, root, fuel, errors)
  {
    hide Traces, Misses, FailedTry, Report, AtStart, FromTry, Named;
    var p, m := NonTerminal(root), FurthestMiss(fs);
    var furthest := AtStart(fs, m);
    forall x ensures x in fs <==> FailedTry(e, p, 0, fuel, [], x) { MissesAreFailedTries(e, p, 0, fuel, [], x); }
    forall x ensures x in furthest <==> x in fs && x.miss.start == m { AtStartIs(fs, m, x); }
    var y :| y in fs && y.miss.start == m;
    ReportNames(errors, furthest, y);
    SomeNamed(errors, y);
    forall error | error in errors ensures FromTry(e, p, fuel, error) {
      ReportFrom(e, p, fuel, errors, furthest, error);
    }
    forall x | FailedTry(e, p, 0, fuel, [], x) && x.miss.start == m ensures Named(errors, x) {
      ReportNames(errors, furthest, x);
    }
  }

  /** Main result: what is reported for the log of a failed parse. */
  lemma ReportOfFailure(e: Env, root: nat, fuel: nat, log: seq<Event>)
    requires e.Valid() && MacroMade(e.g) && fuel > 0
    requires var r := Parse(e, NonTerminal(root), 0, fuel); r.Failed? || r.Aborted?
    requires Erased(log) == LogOf(Traces(e, NonTerminal(root), 0, fuel))
    ensures Rooted(log)
    ensures FurthestFailures(e, root, fuel, ErrorsAt(log, FurthestStart(log)))
  {
    CallUnfolds(e, root, 0, fuel);
    FailureMisses(e, NonTerminal(root), 0, fuel, []);
    hide Parse, Traces, Rooted, ErrorsAt, FurthestStart, FurthestMiss, Misses, Report, AtStart, Erased,
        FurthestFailures;
    var t := Traces(e, NonTerminal(root), 0, fuel)[0];
    assert Traces(e, NonTerminal(root), 0, fuel) == [t];
    TraceReport(log, t);
    RootedReport(log, FurthestStart(log));
    FurthestReport(e, root, fuel, ErrorsAt(log, FurthestStart(log)), Misses([t], []));
  }

  lemma SomeNamed(errors: seq<ParseError>, x: Found)
    requires Named(errors, x)
    ensures errors != []
  {
  }

  lemma RootedReport(log: seq<Event>, m: nat)
    requires Rooted(log)
    ensures forall error | error in ErrorsAt(log, m) :: error.start == m && error.context != []
  {
    hide Rooted;
    ContextsNonEmpty(log, |log|, m);
    assert log[..|log|] == log;
  }
}
