/** What the structured semantics promises of every program; `TryMachine.Simulate` carries it over to the machine. */
module TryLaws {
  import opened Wrappers
  import opened ErrorTypes
  import opened ErrorContext
  import opened MemStack
  import opened TryPrograms

  // ----- Each try fires at most one clause and starts FINALLY once -----

  /** What to count in a trace: reports of the try at a level, or of any shallower try. */
  datatype Tag = Entries | Firings | Finallies | Shallower

  predicate Tagged(e: Event, tag: Tag, level: nat) {
    match tag
    case Entries => e == Entered(level)
    case Firings => e == Fired(level)
    case Finallies => e == Finalized(level)
    case Shallower => (e.Entered? || e.Fired? || e.Finalized?) && e.level < level
  }

  function Count(trace: seq<Event>, tag: Tag, level: nat): nat {
    if trace == [] then 0 else (if Tagged(trace[0], tag, level) then 1 else 0) + Count(trace[1..], tag, level)
  }

  lemma {:induction false} CountAppend(a: seq<Event>, b: seq<Event>, tag: Tag, level: nat)
    ensures Count(a + b, tag, level) == Count(a, tag, level) + Count(b, tag, level)
  {
    if a == [] {
      assert a + b == b;
    } else {
      assert (a + b)[1..] == a[1..] + b;
      CountAppend(a[1..], b, tag, level);
    }
  }

  /** Nothing in the trace is about the try at this level or a shallower one. */
  ghost predicate Deeper(trace: seq<Event>, level: nat) {
    forall tag :: Count(trace, tag, level) == 0
  }

  lemma DeeperAppend(a: seq<Event>, b: seq<Event>, level: nat)
    requires Deeper(a, level) && Deeper(b, level)
    ensures Deeper(a + b, level)
  {
    forall tag ensures Count(a + b, tag, level) == 0 {
      CountAppend(a, b, tag, level);
    }
  }

  lemma {:induction false} CountOutside(trace: seq<Event>, tag: Tag, level: nat)
    requires level > 0 && Count(trace, Shallower, level) == 0
    ensures Count(trace, tag, level - 1) == 0
  {
    if trace != [] {
      CountOutside(trace[1..], tag, level);
    }
  }

  lemma {:induction false} CountFrees(cs: seq<ContextId>, tag: Tag, level: nat)
    ensures Count(Frees(cs), tag, level) == 0
  {
    if cs != [] {
      assert Frees(cs)[1..] == Frees(cs[1..]);
      CountFrees(cs[1..], tag, level);
    }
  }

  /** A statement only reports tries deeper than the one it runs in. */
  lemma {:induction false} EvalDeeper(s: Stmt, depth: nat, w: World)
    requires ValidStack(w.stack)
    ensures Deeper(Eval(s, depth, w).trace, depth)
    decreases s, 2
  {
    match s
    case Seq(a, b) =>
      var r := Eval(a, depth, w);
      EvalDeeper(a, depth, w);
      if r.out == Normal {
        EvalDeeper(b, depth, r.w);
        DeeperAppend(r.trace, Eval(b, depth, r.w).trace, depth);
      }
    case Block(kind, ctx, body) =>
      var w1 := w.(stack := w.stack + Pushed(kind, ctx, depth));
      EvalDeeper(body, depth, w1);
      LeaveDeeper(kind, Eval(body, depth, w1), depth);
    case Try(body, cs, finally) =>
      if depth < ERROR_TRY_MAX {
        EvalTry(body, cs, finally, depth, w);
        TryTrace(body, cs, finally, depth, w);
        forall tag ensures Count(Eval(s, depth, w).trace, tag, depth) == 0 {
          CountOutside(Eval(s, depth, w).trace, tag, depth + 1);
        }
      }
    case Skip =>
    case Act(_) =>
    case Throw(_) =>
    case Rethrow =>
  }

  lemma LeaveDeeper(kind: BlockKind, r: Run, level: nat)
    requires ValidStack(r.w.stack) && Deeper(r.trace, level)
    ensures var left := Leave(kind, r.w.stack);
            left.Some? ==> Deeper(r.trace + left.value.1, level)
  {
    var left := Leave(kind, r.w.stack);
    if left.Some? {
      DeeperAppend(r.trace, left.value.1, level);
    }
  }

  /** A caught error is reported as one firing of the try. */
  ghost predicate OneFiring(c: ClauseRun, level: nat) {
    c.Caught? ==> forall tag :: Count(c.run.trace, tag, level) == if tag == Firings then 1 else 0
  }

  lemma {:induction false} ClausesDeeper(cs: Clauses, level: nat, w: World)
    requires ValidStack(w.stack)
    ensures OneFiring(EvalClauses(cs, level, w), level)
    decreases cs, 0
  {
    if cs.Clause? {
      if Matches(w.rec, cs.errorType, cs.fatal) {
        EvalDeeper(cs.handler, level, w);
        var trace := Eval(cs.handler, level, w).trace;
        forall tag ensures Count([Fired(level)] + trace, tag, level) == if tag == Firings then 1 else 0 {
          CountAppend([Fired(level)], trace, tag, level);
        }
      } else {
        ClausesDeeper(cs.rest, level, w);
      }
    }
  }

  /** Progress of a try so far: nothing shallower reported, entered once, fired at most once. */
  ghost predicate Proper(t: TryRun, level: nat, finallies: nat) {
    && Count(t.trace, Shallower, level) == 0
    && Count(t.trace, Entries, level) == 1
    && Count(t.trace, Firings, level) == (if t.fired then 1 else 0)
    && Count(t.trace, Finallies, level) == finallies
  }

  lemma AppendAll(a: seq<Event>, b: seq<Event>, level: nat)
    ensures forall tag :: Count(a + b, tag, level) == Count(a, tag, level) + Count(b, tag, level)
  {
    forall tag ensures Count(a + b, tag, level) == Count(a, tag, level) + Count(b, tag, level) {
      CountAppend(a, b, tag, level);
    }
  }

  lemma LookDeeper(cs: Clauses, level: nat, examined: bool, w: World)
    requires ValidStack(w.stack) && level > 0
    ensures Deeper(Look(cs, level, examined, w).1, level)
  {
    forall tag ensures Count(Look(cs, level, examined, w).1, tag, level) == 0 {
      CountFrees(NewOnes(w.stack[|Cleaned(w.stack, level)|..]), tag, level);
    }
  }

  lemma CountOne(e: Event, level: nat)
    ensures forall tag :: Count([e], tag, level) == if Tagged(e, tag, level) then 1 else 0
  {
  }

  lemma StartProper(level: nat, w: World)
    ensures Proper(Start(level, w), level, 0)
  {
  }

  lemma FinalizingProper(level: nat, t: TryRun)
    requires Proper(t, level, 0)
    ensures Proper(Finalizing(level, t), level, 1)
  {
    AppendAll(t.trace, [Finalized(level)], level);
    CountOne(Finalized(level), level);
  }

  /** Absorbing a part adds at most one firing, and only to a try that has not fired. */
  lemma AbsorbProper(cs: Clauses, level: nat, t: TryRun, r: Run, c: ClauseRun, finallies: nat)
    requires level > 0 && Proper(t, level, finallies) && ValidRun(r) && Deeper(r.trace, level)
    requires (c.Caught? ==> ValidStack(c.run.w.stack)) && OneFiring(c, level)
    ensures Proper(Absorb(cs, level, t, r, c), level, finallies)
  {
    var trace := t.trace + r.trace;
    AppendAll(t.trace, r.trace, level);
    if r.out == Raised && !t.fired {
      var frees := Look(cs, level, t.examined, r.w).1;
      LookDeeper(cs, level, t.examined, r.w);
      AppendAll(trace, frees, level);
      if c.Caught? {
        AppendAll(trace + frees, c.run.trace, level);
      }
    }
  }

  lemma FinishTrace(t: TryRun)
    requires ValidStack(t.w.stack)
    ensures Finish(t).trace == t.trace && (t.aborted ==> Finish(t).out.Aborted?)
  {
  }

  /** Every entered try is entered once, fires at most one clause and, if it ends, has started its FINALLY block
      exactly once. */
  lemma {:induction false} TryTrace(body: Stmt, cs: Clauses, finally: Option<Stmt>, depth: nat, w: World)
    requires ValidStack(w.stack) && depth < ERROR_TRY_MAX
    ensures var r := TryResult(body, cs, finally, depth, w);
            && Count(r.trace, Shallower, depth + 1) == 0
            && Count(r.trace, Entries, depth + 1) == 1
            && Count(r.trace, Firings, depth + 1) <= 1
            && Count(r.trace, Finallies, depth + 1) <= (if finally.Some? then 1 else 0)
            && (!r.out.Aborted? && finally.Some? ==> Count(r.trace, Finallies, depth + 1) == 1)
    decreases Try(body, cs, finally), 1
  {
    var level := depth + 1;
    var b := Eval(body, level, w);
    StartProper(level, w);
    EvalDeeper(body, level, w);
    AbsorbedProper(cs, level, Start(level, w), b, 0);
    var t := Absorbed(cs, level, Start(level, w), b);
    FinishTrace(t);
    if finally.Some? && !t.aborted {
      FinallyTrace(body, cs, finally, level, t);
    }
  }

  lemma {:induction false} AbsorbedProper(cs: Clauses, level: nat, t: TryRun, r: Run, finallies: nat)
    requires level > 0 && Proper(t, level, finallies) && ValidRun(r) && Deeper(r.trace, level)
    ensures Proper(Absorbed(cs, level, t, r), level, finallies)
    decreases cs, 1
  {
    var w := Look(cs, level, t.examined, r.w).0;
    ClausesDeeper(cs, level, w);
    AbsorbProper(cs, level, t, r, EvalClauses(cs, level, w), finallies);
  }

  lemma {:induction false} FinallyTrace(body: Stmt, cs: Clauses, finally: Option<Stmt>, level: nat, t: TryRun)
    requires finally.Some? && level > 0 && ValidStack(t.w.stack) && Proper(t, level, 0)
    ensures var u := Absorbed(cs, level, Finalizing(level, t), Eval(finally.value, level, t.w));
            Proper(u, level, 1) && Finish(u).trace == u.trace
    decreases Try(body, cs, finally), 0
  {
    var f := Eval(finally.value, level, t.w);
    EvalDeeper(finally.value, level, t.w);
    FinalizingProper(level, t);
    AbsorbedProper(cs, level, Finalizing(level, t), f, 1);
    FinishTrace(Absorbed(cs, level, Finalizing(level, t), f));
  }

  // ----- Where an error goes -----

  /** Some clause accepts an error of the recorded type. */
  predicate Accepted(cs: Clauses, rec: Option<ErrorType>) {
    cs.Clause? && (Matches(rec, cs.errorType, cs.fatal) || Accepted(cs.rest, rec))
  }

  /** An error has come back to a try that has not fired, and a clause takes it. */
  ghost predicate Takes(cs: Clauses, level: nat, t: TryRun, r: Run)
    requires ValidRun(r) && level > 0
  {
    r.out == Raised && !t.fired && Accepted(cs, r.w.rec) && !Stuck(cs, level, t.examined, r.w.stack)
  }

  /** An error has come back to a try and goes outward: the try has fired before, no clause accepts the error, or the clause
      that takes it raises one itself. */
  ghost predicate Passes(cs: Clauses, level: nat, t: TryRun, r: Run)
    requires ValidRun(r) && level > 0
  {
    r.out == Raised &&
    (Takes(cs, level, t, r) ==>
       var c := EvalClauses(cs, level, Look(cs, level, t.examined, r.w).0); c.Caught? ==> c.run.out == Raised)
  }

  lemma {:induction false} CaughtExactlyWhen(cs: Clauses, level: nat, w: World)
    requires ValidStack(w.stack)
    ensures EvalClauses(cs, level, w).Caught? <==> Accepted(cs, w.rec)
    decreases cs
  {
    if cs.Clause? {
      CaughtExactlyWhen(cs.rest, level, w);
    }
  }

  lemma AbsorbedFires(cs: Clauses, level: nat, t: TryRun, r: Run)
    requires ValidRun(r) && level > 0 && !t.aborted
    ensures var u := Absorbed(cs, level, t, r);
            && (u.fired <==> t.fired || Takes(cs, level, t, r))
            && (!u.aborted && r.out == Raised ==> (u.pending <==> Passes(cs, level, t, r)))
            && (r.out == Normal ==> u.pending == t.pending && !u.aborted)
  {
    hide Eval;
    var w := Look(cs, level, t.examined, r.w).0;
    assert w.rec == r.w.rec;
    CaughtExactlyWhen(cs, level, w);
  }

  /** A try reports that a clause has fired exactly when its body, or its FINALLY block while none had fired, came back with
      an error that a clause accepts. */
  lemma FiresExactlyWhen(body: Stmt, cs: Clauses, finally: Option<Stmt>, depth: nat, w: World)
    requires ValidStack(w.stack) && depth < ERROR_TRY_MAX
    ensures var level := depth + 1;
            var b := Eval(body, level, w);
            var t := Absorbed(cs, level, Start(level, w), b);
            Count(TryResult(body, cs, finally, depth, w).trace, Firings, level) == 1 <==>
            || Takes(cs, level, Start(level, w), b)
            || (finally.Some? && !t.aborted && Takes(cs, level, t, Eval(finally.value, level, t.w)))
  {
    hide Eval;
    hide Absorbed;
    hide Count;
    hide Takes;
    var level := depth + 1;
    var b := Eval(body, level, w);
    StartProper(level, w);
    EvalDeeper(body, level, w);
    AbsorbedProper(cs, level, Start(level, w), b, 0);
    AbsorbedFires(cs, level, Start(level, w), b);
    var t := Absorbed(cs, level, Start(level, w), b);
    FinishTrace(t);
    if finally.Some? && !t.aborted {
      FinallyTrace(body, cs, finally, level, t);
      TakesAgain(cs, level, t, Eval(finally.value, level, t.w));
    }
  }

  lemma TakesAgain(cs: Clauses, level: nat, t: TryRun, f: Run)
    requires ValidRun(f) && level > 0 && !t.aborted
    ensures var u := Absorbed(cs, level, Finalizing(level, t), f);
            && (u.fired <==> t.fired || Takes(cs, level, t, f))
            && (!u.aborted && f.out == Raised ==> (u.pending <==> Passes(cs, level, t, f)))
            && (f.out == Normal ==> u.pending == t.pending && !u.aborted)
  {
    AbsorbedFires(cs, level, Finalizing(level, t), f);
  }

  /** An error leaves a try exactly when the last one that came back to it goes outward: that of the FINALLY block if it
      raised one, and that of the body otherwise. */
  lemma OutwardExactlyWhen(body: Stmt, cs: Clauses, finally: Option<Stmt>, depth: nat, w: World)
    requires ValidStack(w.stack) && !TryResult(body, cs, finally, depth, w).out.Aborted?
    ensures var level := depth + 1;
            var b := Eval(body, level, w);
            var t := Absorbed(cs, level, Start(level, w), b);
            TryResult(body, cs, finally, depth, w).out == Raised <==>
            if finally.Some? && Eval(finally.value, level, t.w).out == Raised
            then Passes(cs, level, t, Eval(finally.value, level, t.w)) else Passes(cs, level, Start(level, w), b)
  {
    hide Eval;
    hide Absorbed;
    hide Passes;
    var level := depth + 1;
    var b := Eval(body, level, w);
    AbsorbedFires(cs, level, Start(level, w), b);
    NormalPasses(cs, level, Start(level, w), b);
    AbortIsKept(cs, level, Start(level, w), b);
    var t := Absorbed(cs, level, Start(level, w), b);
    if finally.Some? && !t.aborted {
      var f := Eval(finally.value, level, t.w);
      TakesAgain(cs, level, t, f);
      AbortIsKept(cs, level, Finalizing(level, t), f);
    }
  }

  lemma NormalPasses(cs: Clauses, level: nat, t: TryRun, r: Run)
    requires ValidRun(r) && level > 0
    ensures Passes(cs, level, t, r) ==> r.out == Raised
  {
  }

  lemma AbortIsKept(cs: Clauses, level: nat, t: TryRun, r: Run)
    requires ValidRun(r) && level > 0
    ensures r.out.Aborted? ==> Absorbed(cs, level, t, r).aborted
  {
  }

  // ----- What a clause accepts -----

  /** A clause fires exactly for errors of its type or a type derived from it; CATCH() and CATCH_ANY() do not for fatal ones,
      and CATCH_FATAL() does. */
  lemma ClauseFiresExactlyWhen(body: Stmt, t: ErrorType, fatal: bool, handler: Stmt, depth: nat, w: World, e: ErrorType)
    requires ValidStack(w.stack) && depth < ERROR_TRY_MAX
    requires var b := Eval(body, depth + 1, w);
             && b.out == Raised && b.w.rec == Some(e)
             && !Stuck(Clause(t, fatal, handler, NoClause), depth + 1, false, b.w.stack)
    ensures var r := TryResult(body, Clause(t, fatal, handler, NoClause), None, depth, w);
            Count(r.trace, Firings, depth + 1) == 1 <==> IsA(e, t) && (e.fatal ==> fatal)
  {
    hide Eval;
    hide Count;
    hide Stuck;
    var cs := Clause(t, fatal, handler, NoClause);
    assert Accepted(cs, Some(e)) <==> Matches(Some(e), t, fatal);
    FiresExactlyWhen(body, cs, None, depth, w);
  }

  /** Clauses that are not for fatal errors. */
  predicate Ordinary(cs: Clauses) {
    cs.Clause? ==> !cs.fatal && Ordinary(cs.rest)
  }

  lemma {:induction false} FatalIsNotAccepted(cs: Clauses, e: ErrorType)
    requires Ordinary(cs) && e.fatal
    ensures !Accepted(cs, Some(e))
  {
    if cs.Clause? {
      FatalIsNotAccepted(cs.rest, e);
    }
  }

  /** A fatal error goes through any number of ordinary clauses, and out of the try with its record as it was. */
  lemma FatalGoesOutward(body: Stmt, cs: Clauses, depth: nat, w: World, e: ErrorType)
    requires ValidStack(w.stack) && depth < ERROR_TRY_MAX && Ordinary(cs) && e.fatal
    requires var b := Eval(body, depth + 1, w);
             b.out == Raised && b.w.rec == Some(e) && !Stuck(cs, depth + 1, false, b.w.stack)
    ensures var r := TryResult(body, cs, None, depth, w);
            r.out == Raised && r.w.rec == Some(e) && Count(r.trace, Firings, depth + 1) == 0
  {
    hide Eval;
    hide Count;
    hide Stuck;
    var level := depth + 1;
    var b := Eval(body, level, w);
    FatalIsNotAccepted(cs, e);
    FiresExactlyWhen(body, cs, None, depth, w);
    CaughtExactlyWhen(cs, level, Look(cs, level, false, b.w).0);
    TryTrace(body, cs, None, depth, w);
  }
}
