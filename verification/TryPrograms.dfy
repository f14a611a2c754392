/** TRY/CATCH/FINALLY together with memory context unwinding.

    Two descriptions of the same programs: `Machine` takes the small steps of the macros in error.h over the try stack
    of error.c (a jump goes to the innermost active try, whatever part of it is running), and `Eval` is a structured
    semantics by recursion on the program. */
module TryPrograms {
  import opened Wrappers
  import opened ErrorTypes
  import opened ErrorContext
  import opened MemStack

  // ----- Programs -----

  /** MEM_CONTEXT_BEGIN, MEM_CONTEXT_NEW_BEGIN and MEM_CONTEXT_TEMP_BEGIN blocks */
  datatype BlockKind = With | NewKept | NewTemp

  datatype Stmt =
    | Skip
    | Act(id: nat)
    | Throw(errorType: ErrorType)
    | Rethrow
    | Seq(first: Stmt, second: Stmt)
    | Block(kind: BlockKind, ctx: ContextId, body: Stmt)
    | Try(body: Stmt, clauses: Clauses, finally: Option<Stmt>)

  /** CATCH(t) is Clause(t, false, ...), CATCH_ANY() Clause(RuntimeError, false, ...), CATCH_FATAL() Clause(RuntimeError, true, ...) */
  datatype Clauses = NoClause | Clause(errorType: ErrorType, fatal: bool, handler: Stmt, rest: Clauses)

  /** What can be observed. Levels are try depths, so a try and the tries nested in it have different levels. */
  datatype Event =
    | Acted(id: nat, current: ContextId)
    | Freed(ctx: ContextId)
    | Entered(level: nat)
    | Fired(level: nat)
    | Finalized(level: nat)

  function Frees(cs: seq<ContextId>): seq<Event> {
    seq(|cs|, i requires 0 <= i < |cs| => Freed(cs[i]))
  }

  function Pushed(kind: BlockKind, ctx: ContextId, depth: nat): (s: Stack) {
    if kind == With then [Entry(ctx, Switch, depth)] else [Entry(ctx, New, depth), Entry(ctx, Switch, depth)]
  }

  /** Leave a block: memContextSwitchBack() and then, for a new context, memContextKeep() or memContextDiscard().
      None when the entry on top is not of the expected kind, which a production build does not define. */
  ghost function Leave(kind: BlockKind, s: Stack): (left: Option<(Stack, seq<Event>)>)
    requires ValidStack(s)
    ensures left.Some? ==> ValidStack(left.value.0) && left.value.0 <= s
  {
    var n := |s| - 1;
    if n == 0 || s[n].kind != Switch then None
    else if kind == With then Some((s[..n], []))
    else if s[n - 1].kind != New then None
    else Some((s[..n - 1], if kind == NewTemp then [Freed(s[n - 1].ctx)] else []))
  }

  // ----- Structured semantics -----

  /** The one error record and the context stack. */
  datatype World = World(rec: Option<ErrorType>, stack: Stack)

  /** Aborted: an error is propagated although the record is empty, or a block is left out of order; or cleaning up has no
      end. */
  datatype Outcome = Normal | Raised | Aborted(endless: bool)

  datatype Run = Run(out: Outcome, w: World, trace: seq<Event>)

  datatype ClauseRun = Missed | Caught(run: Run)

  /** Progress of one try: has a clause looked at an error, has one fired, is an error pending, is the program aborted, and
      without end? */
  datatype TryRun = TryRun(examined: bool, fired: bool, pending: bool, aborted: bool, endless: bool, w: World,
                           trace: seq<Event>)

  /** What a block makes of a body that has ended normally. Freeing a temporary context opens a try, which throws at the
      nesting limit; the context then stays on the stack, no longer current. */
  ghost function Left(kind: BlockKind, depth: nat, r: Run): (q: Run)
    requires ValidStack(r.w.stack)
    ensures ValidRun(q)
  {
    var left := Leave(kind, r.w.stack);
    if left == None then r.(out := Aborted(false))
    else if kind == NewTemp && depth >= ERROR_TRY_MAX then
      Run(Raised, World(Some(AssertError), r.w.stack[..|r.w.stack| - 1]), r.trace)
    else Run(Normal, r.w.(stack := left.value.0), r.trace + left.value.1)
  }

  /** At the nesting limit a context that has to be cleaned up cannot be freed: the try this takes throws back into the
      one that is cleaning up, which begins anew (`TryMachine.FirstLookEndsExactlyWhen`). */
  ghost predicate Stuck(cs: Clauses, level: nat, examined: bool, s: Stack)
    requires ValidStack(s) && level > 0
  {
    && cs.Clause? && !examined && !cs.fatal
    && level >= ERROR_TRY_MAX && NewOnes(s[|Cleaned(s, level)|..]) != []
  }

  /** The first clause to look at an error of this try has the context stack cleaned. */
  ghost function Look(cs: Clauses, level: nat, examined: bool, w: World): (r: (World, seq<Event>))
    requires ValidStack(w.stack) && level > 0
    ensures ValidStack(r.0.stack)
  {
    if cs.NoClause? || examined then (w, [])
    else
      var left := Cleaned(w.stack, level);
      (w.(stack := left), if cs.fatal then [] else Frees(NewOnes(w.stack[|left|..])))
  }

  predicate Matches(rec: Option<ErrorType>, t: ErrorType, fatal: bool) {
    rec.Some? && IsA(rec.value, t) && (fatal || !rec.value.fatal)
  }

  ghost predicate ValidRun(r: Run) {
    ValidStack(r.w.stack) && (r.out == Raised ==> r.w.rec.Some?)
  }

  /** Fold a finished body or FINALLY block `r` into the progress `t` of its try. An error is offered to the clauses
      (with result `c`) only while none has fired. */
  ghost function Absorb(cs: Clauses, level: nat, t: TryRun, r: Run, c: ClauseRun): (u: TryRun)
    requires ValidRun(r) && level > 0 && (c.Caught? ==> ValidStack(c.run.w.stack))
    ensures ValidStack(u.w.stack)
  {
    var trace := t.trace + r.trace;
    if r.out.Aborted? then t.(aborted := true, endless := r.out.endless, w := r.w, trace := trace)
    else if r.out == Normal then t.(w := r.w, trace := trace)
    else if t.fired then t.(pending := true, w := r.w, trace := trace)
    else if Stuck(cs, level, t.examined, r.w.stack) then t.(aborted := true, endless := true, w := r.w, trace := trace)
    else
      var (w, frees) := Look(cs, level, t.examined, r.w);
      match c
      case Missed => TryRun(t.examined || cs.Clause?, false, true, false, false, w, trace + frees)
      case Caught(h) =>
        TryRun(true, true, h.out == Raised, h.out.Aborted?, h.out == Aborted(true), h.w, trace + frees + h.trace)
  }

  /** Leaving the try: a handled error is forgotten, a pending one goes outward. */
  ghost function Finish(t: TryRun): (r: Run)
    requires ValidStack(t.w.stack)
    ensures ValidRun(r)
  {
    if t.aborted then Run(Aborted(t.endless), t.w, t.trace)
    else if t.pending && t.w.rec == None then Run(Aborted(false), t.w, t.trace)
    else if t.pending then Run(Raised, t.w, t.trace)
    else Run(Normal, if t.fired then t.w.(rec := None) else t.w, t.trace)
  }

  ghost function Start(level: nat, w: World): TryRun {
    TryRun(false, false, false, false, false, w, [Entered(level)])
  }

  ghost function Finalizing(level: nat, t: TryRun): TryRun {
    t.(trace := t.trace + [Finalized(level)])
  }

  ghost function Eval(s: Stmt, depth: nat, w: World): (r: Run)
    requires ValidStack(w.stack)
    ensures ValidRun(r)
    decreases s
  {
    match s
    case Skip => Run(Normal, w, [])
    case Act(id) => Run(Normal, w, [Acted(id, Current(w.stack))])
    case Throw(t) => Run(Raised, w.(rec := Some(t)), [])
    case Rethrow => Run(if w.rec.Some? then Raised else Aborted(false), w, [])
    case Seq(a, b) =>
      var r := Eval(a, depth, w);
      if r.out != Normal then r
      else
        var q := Eval(b, depth, r.w);
        q.(trace := r.trace + q.trace)
    case Block(kind, ctx, body) =>
      var r := Eval(body, depth, w.(stack := w.stack + Pushed(kind, ctx, depth)));
      if r.out != Normal then r else Left(kind, depth, r)
    case Try(body, cs, finally) =>
      if depth >= ERROR_TRY_MAX then Run(Raised, w.(rec := Some(AssertError)), [])
      else
        var b := Eval(body, depth + 1, w);
        var t := Absorb(cs, depth + 1, Start(depth + 1, w), b,
                        EvalClauses(cs, depth + 1, Look(cs, depth + 1, false, b.w).0));
        if finally == None || t.aborted then Finish(t)
        else
          var f := Eval(finally.value, depth + 1, t.w);
          Finish(Absorb(cs, depth + 1, Finalizing(depth + 1, t), f,
                        EvalClauses(cs, depth + 1, Look(cs, depth + 1, t.examined, f.w).0)))
  }

  /** The first clause that accepts the recorded error runs, and no other. */
  ghost function EvalClauses(cs: Clauses, level: nat, w: World): (c: ClauseRun)
    requires ValidStack(w.stack)
    ensures c.Caught? ==> ValidRun(c.run)
    decreases cs
  {
    match cs
    case NoClause => Missed
    case Clause(t, fatal, handler, rest) =>
      if Matches(w.rec, t, fatal) then
        var r := Eval(handler, level, w);
        Caught(r.(trace := [Fired(level)] + r.trace))
      else EvalClauses(rest, level, w)
  }

  /** Progress of a try after a part of it has run as `r` says. */
  ghost function Absorbed(cs: Clauses, level: nat, t: TryRun, r: Run): (u: TryRun)
    requires ValidRun(r) && level > 0
    ensures ValidStack(u.w.stack)
  {
    Absorb(cs, level, t, r, EvalClauses(cs, level, Look(cs, level, t.examined, r.w).0))
  }

  /** A try within the nesting limit: the body, then the FINALLY block if there is one, then the end of the try. */
  ghost function TryResult(body: Stmt, cs: Clauses, finally: Option<Stmt>, depth: nat, w: World): Run
    requires ValidStack(w.stack)
  {
    var t := Absorbed(cs, depth + 1, Start(depth + 1, w), Eval(body, depth + 1, w));
    if finally == None || t.aborted then Finish(t)
    else Finish(Absorbed(cs, depth + 1, Finalizing(depth + 1, t), Eval(finally.value, depth + 1, t.w)))
  }

  lemma EvalBlock(kind: BlockKind, ctx: ContextId, body: Stmt, depth: nat, w: World)
    requires ValidStack(w.stack)
    ensures var r := Eval(body, depth, w.(stack := w.stack + Pushed(kind, ctx, depth)));
            Eval(Block(kind, ctx, body), depth, w) == if r.out != Normal then r else Left(kind, depth, r)
  {
  }

  lemma EvalTry(body: Stmt, cs: Clauses, finally: Option<Stmt>, depth: nat, w: World)
    requires ValidStack(w.stack) && depth < ERROR_TRY_MAX
    ensures Eval(Try(body, cs, finally), depth, w) == TryResult(body, cs, finally, depth, w)
  {
  }
}
