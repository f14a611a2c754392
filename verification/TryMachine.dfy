/** The steps of the error.h macros, and the proof that they run programs as `TryPrograms.Eval` says. */
module TryMachine {
  import opened Wrappers
  import opened ErrorTypes
  import opened ErrorContext
  import opened MemStack
  import opened TryPrograms

  // ----- The machine -----

  /** What remains to be done after a statement. KTry is the end of the running part of the innermost try. */
  datatype Cont = Halt | KSeq(next: Stmt, k: Cont) | KBlock(kind: BlockKind, ctx: ContextId, k: Cont) | KTry

  /** C frame of an active TRY: its clauses, FINALLY block, continuation and TRY_finally flag. */
  datatype Frame = Frame(clauses: Clauses, finally: Option<Stmt>, k: Cont, started: bool)

  datatype Control =
    | Exec(s: Stmt, k: Cont)
    | Return(k: Cont)
    | Test(clauses: Clauses)      // in the else-if chain of CATCH tests
    | ToFinally                   // at the `if (!TRY_finally)` test
    | ToEnd                       // at errorInternalTryEnd()
    | Exit                        // no try left: the process exits with UnhandledError
    | Abort                       // nothing defined: no error recorded to propagate, or a block left out of order

  datatype Machine = Machine(control: Control, tries: Tries, frames: seq<Frame>, stack: Stack, trace: seq<Event>) {

    ghost predicate Valid() {
      tries.Valid() && |frames| == tries.tryTotal && ValidStack(stack)
    }

    ghost function World(): World {
      TryPrograms.World(tries.error, stack)
    }
  }

  /** errorInternalPropagate(): flag the error and jump to the innermost try. */
  ghost function Raise(m: Machine): Machine
    requires m.Valid()
  {
    if m.tries.error == None then m.(control := Abort)
    else
      m.(tries := m.tries.Mark(),
         control := if m.tries.tryTotal > 0 then Test(m.frames[m.tries.tryTotal - 1].clauses) else Exit)
  }

  /** What memContextClean() leaves when it cannot free the first new context it comes to. */
  ghost function Blocked(s: Stack, level: nat): (r: Stack)
    requires ValidStack(s) && level > 0
    ensures ValidStack(r) && r <= s
  {
    if s[|s| - 1].tryDepth >= level && s[|s| - 1].kind == Switch then Blocked(s[..|s| - 1], level) else s
  }

  /** One errorInternalCatch() test, with the cleanup handlers when the try has just been left. */
  ghost function TestClause(m: Machine, c: Clauses): Machine
    requires m.Valid() && c.Clause? && m.tries.tryTotal > 0
  {
    var clean := m.tries.Top().state == InTry;
    var left := if clean then Cleaned(m.stack, m.tries.tryTotal) else m.stack;
    var frees := if clean && !c.fatal then Frees(NewOnes(m.stack[|left|..])) else [];
    var t := m.tries.Examine();
    if Stuck(c, m.tries.tryTotal, !clean, m.stack) then
      Raise(m.(tries := m.tries.(error := Some(AssertError)), stack := Blocked(m.stack, m.tries.tryTotal)))
    else if t.Accepts(c.errorType, c.fatal) then
      m.(control := Exec(c.handler, KTry), tries := t.Fire(), stack := left,
         trace := m.trace + frees + [Fired(t.tryTotal)])
    else
      m.(control := Test(c.rest), tries := t, stack := left, trace := m.trace + frees)
  }

  ghost function ExecStep(m: Machine, s: Stmt, k: Cont): Machine
    requires m.Valid()
  {
    match s
    case Skip => m.(control := Return(k))
    case Act(id) => m.(control := Return(k), trace := m.trace + [Acted(id, Current(m.stack))])
    case Throw(t) => Raise(m.(tries := m.tries.(error := Some(t))))
    case Rethrow => Raise(m)
    case Seq(a, b) => m.(control := Exec(a, KSeq(b, k)))
    case Block(kind, ctx, body) =>
      m.(control := Exec(body, KBlock(kind, ctx, k)), stack := m.stack + Pushed(kind, ctx, m.tries.tryTotal))
    case Try(body, cs, finally) =>
      if m.tries.tryTotal >= ERROR_TRY_MAX then Raise(m.(tries := m.tries.(error := Some(AssertError))))
      else
        m.(control := Exec(body, KTry), tries := m.tries.Begin(), frames := m.frames + [Frame(cs, finally, k, false)],
           trace := m.trace + [Entered(m.tries.tryTotal + 1)])
  }

  ghost function ReturnStep(m: Machine, k: Cont): Machine
    requires m.Valid()
  {
    match k
    case Halt => m
    case KSeq(next, k') => m.(control := Exec(next, k'))
    case KBlock(kind, _, k') =>
      var left := Leave(kind, m.stack);
      if left == None then m.(control := Abort)
      else if kind == NewTemp && m.tries.tryTotal >= ERROR_TRY_MAX then
        Raise(m.(tries := m.tries.(error := Some(AssertError)), stack := m.stack[..|m.stack| - 1]))
      else m.(control := Return(k'), stack := left.value.0, trace := m.trace + left.value.1)
    case KTry => m.(control := ToFinally)
  }

  ghost function FinallyStep(m: Machine): Machine
    requires m.Valid() && m.tries.tryTotal > 0
  {
    var i := m.tries.tryTotal - 1;
    var f := m.frames[i];
    if f.finally == None || f.started then m.(control := ToEnd)
    else
      m.(control := Exec(f.finally.value, KTry), frames := m.frames[i := f.(started := true)],
         trace := m.trace + [Finalized(i + 1)])
  }

  ghost function EndStep(m: Machine): Machine
    requires m.Valid() && m.tries.tryTotal > 0
  {
    var i := m.tries.tryTotal - 1;
    var m' := m.(tries := m.tries.End(), frames := m.frames[..i]);
    if m.tries.Top().uncaught then Raise(m') else m'.(control := Return(m.frames[i].k))
  }

  ghost function Step(m: Machine): (m': Machine)
    requires m.Valid()
    ensures m'.Valid()
  {
    match m.control
    case Exec(s, k) => ExecStep(m, s, k)
    case Return(k) => ReturnStep(m, k)
    case Test(cs) =>
      if m.tries.tryTotal == 0 then m.(control := Abort)
      else if cs.NoClause? then m.(control := ToFinally) else TestClause(m, cs)
    case ToFinally => if m.tries.tryTotal == 0 then m.(control := Abort) else FinallyStep(m)
    case ToEnd => if m.tries.tryTotal == 0 then m.(control := Abort) else EndStep(m)
    case Exit => m
    case Abort => m
  }

  ghost function Steps(m: Machine, n: nat): (m': Machine)
    requires m.Valid()
    ensures m'.Valid()
    decreases n
  {
    if n == 0 then m else Steps(Step(m), n - 1)
  }

  lemma {:induction false} StepsAdd(m: Machine, a: nat, b: nat)
    requires m.Valid()
    ensures Steps(m, a + b) == Steps(Steps(m, a), b)
    decreases a
  {
    hide Step;
    if a > 0 {
      StepsAdd(Step(m), a - 1, b);
    }
  }

  // ----- Agreement -----

  /** Both leave the try stack below and at level `n` alone, except for the uncaught flag of the top entry. */
  ghost predicate SameTries(a: Tries, b: Tries, uncaught: bool) {
    && a.Valid() && b.Valid()
    && a.tryTotal == b.tryTotal
    && a.tryList[..a.tryTotal] == b.tryList[..b.tryTotal]
    && b.Top() == if uncaught then a.Top().(uncaught := true) else a.Top()
  }

  /** The machine tests the same clause for ever. */
  ghost predicate Spins(m: Machine) {
    m.Valid() && m.control.Test? && Step(m) == m
  }

  /** `m'` is where the machine has to be once it has executed, from `m` and before `k`, what `r` describes. */
  ghost predicate Agrees(m: Machine, k: Cont, r: Run, m': Machine) {
    && m.Valid() && m'.Valid()
    && m'.trace == m.trace + r.trace
    && match r.out
       case Aborted(endless) => if endless then Spins(m') else m'.control == Abort
       case Normal =>
         m'.control == Return(k) && m'.World() == r.w && m'.frames == m.frames && SameTries(m.tries, m'.tries, false)
       case Raised =>
         && m'.control == (if m.tries.tryTotal > 0 then Test(m.frames[m.tries.tryTotal - 1].clauses) else Exit)
         && m'.World() == r.w && m'.frames == m.frames && SameTries(m.tries, m'.tries, true)
  }

  /** `m` runs a part of the try that was begun in `o` with continuation `k`, and the try has progressed to `t`. */
  ghost predicate Inside(o: Machine, k: Cont, cs: Clauses, finally: Option<Stmt>, started: bool, t: TryRun, m: Machine) {
    && o.Valid() && m.Valid() && o.tries.tryTotal < ERROR_TRY_MAX
    && m.tries.tryTotal == o.tries.tryTotal + 1
    && m.tries.tryList[..o.tries.tryTotal + 1] == o.tries.tryList[..o.tries.tryTotal + 1]
    && m.tries.Top() == TryEntry(if t.fired then AtEnd else if t.examined then InCatch else InTry, t.pending)
    && m.frames == o.frames + [Frame(cs, finally, k, started)]
    && m.World() == t.w
    && m.trace == o.trace + t.trace
  }

  /** The machine gets from `m` to `m'`. */
  ghost predicate Leads(m: Machine, m': Machine) {
    m.Valid() && m'.Valid() && exists n: nat :: Steps(m, n) == m'
  }

  lemma LeadsTrans(m: Machine, m1: Machine, m2: Machine)
    requires Leads(m, m1) && Leads(m1, m2)
    ensures Leads(m, m2)
  {
    var a: nat :| Steps(m, a) == m1;
    var b: nat :| Steps(m1, b) == m2;
    StepsAdd(m, a, b);
    assert Steps(m, a + b) == m2;
  }

  lemma LeadsStep(m: Machine, m1: Machine)
    requires m.Valid() && Step(m) == m1
    ensures Leads(m, m1)
  {
    assert Steps(m1, 0) == m1;
    assert Steps(m, 1) == m1;
  }

  lemma LeadsRefl(m: Machine)
    requires m.Valid()
    ensures Leads(m, m)
  {
    assert Steps(m, 0) == m;
  }

  /** A run seen from one step (or one statement) later is a run from `m`, with the trace in between prepended. */
  lemma AgreesFrom(m: Machine, k: Cont, pre: seq<Event>, q: Run, m1: Machine, m2: Machine)
    requires m.Valid() && Agrees(m1, k, q, m2)
    requires m1.trace == m.trace + pre && m1.frames == m.frames && SameTries(m.tries, m1.tries, false)
    ensures Agrees(m, k, q.(trace := pre + q.trace), m2)
  {
  }

  /** Continuing after an unfinished run: an abrupt result does not depend on the continuation. */
  lemma AgreesAbrupt(m: Machine, k: Cont, k': Cont, r: Run, m': Machine)
    requires r.out != Normal && Agrees(m, k', r, m')
    ensures Agrees(m, k, r, m')
  {
  }

  lemma RaiseAgrees(m: Machine, k: Cont, w: World, m1: Machine)
    requires m.Valid() && m1.Valid() && m1 == m.(tries := m1.tries) && m1.tries == m.tries.(error := w.rec)
    requires w == TryPrograms.World(w.rec, m.stack)
    ensures Agrees(m, k, Run(if w.rec.Some? then Raised else Aborted(false), w, []), Raise(m1))
  {
  }

  // ----- One statement at a time -----

  lemma SimSeqNext(m: Machine, b: Stmt, k: Cont, r: Run, m1: Machine) returns (m2: Machine)
    requires r.out == Normal && Agrees(m, KSeq(b, k), r, m1)
    ensures Leads(m1, m2) && m2 == m1.(control := Exec(b, k))
  {
    m2 := m1.(control := Exec(b, k));
    LeadsStep(m1, m2);
  }

  lemma SimSeqEnter(a: Stmt, b: Stmt, k: Cont, m: Machine) returns (m1: Machine)
    requires m.Valid() && m.control == Exec(Seq(a, b), k)
    ensures Leads(m, m1) && m1 == m.(control := Exec(a, KSeq(b, k)))
  {
    m1 := m.(control := Exec(a, KSeq(b, k)));
    LeadsStep(m, m1);
  }

  lemma SimSeq(a: Stmt, b: Stmt, k: Cont, m: Machine) returns (m': Machine)
    requires m.Valid() && m.control == Exec(Seq(a, b), k)
    ensures Leads(m, m') && Agrees(m, k, Eval(Seq(a, b), m.tries.tryTotal, m.World()), m')
    decreases Seq(a, b), 0
  {
    var m1 := SimSeqEnter(a, b, k, m);
    var m2 := Simulate(a, KSeq(b, k), m1);
    var r := Eval(a, m.tries.tryTotal, m.World());
    LeadsTrans(m, m1, m2);
    if r.out == Normal {
      var m3 := SimSeqNext(m1, b, k, r, m2);
      m' := Simulate(b, k, m3);
      AgreesFrom(m, k, r.trace, Eval(b, m.tries.tryTotal, r.w), m3, m');
      LeadsTrans(m, m2, m3);
      LeadsTrans(m, m3, m');
    } else {
      AgreesAbrupt(m1, k, KSeq(b, k), r, m2);
      m' := m2;
    }
  }

  lemma SimBlockEnter(kind: BlockKind, ctx: ContextId, body: Stmt, k: Cont, m: Machine) returns (m1: Machine)
    requires m.Valid() && m.control == Exec(Block(kind, ctx, body), k)
    ensures Leads(m, m1)
    ensures m1 == m.(control := Exec(body, KBlock(kind, ctx, k)), stack := m.stack + Pushed(kind, ctx, m.tries.tryTotal))
  {
    m1 := m.(control := Exec(body, KBlock(kind, ctx, k)), stack := m.stack + Pushed(kind, ctx, m.tries.tryTotal));
    LeadsStep(m, m1);
  }

  lemma SimBlockEnd(m: Machine, kind: BlockKind, ctx: ContextId, k: Cont, r: Run, m1: Machine, o: Machine)
    returns (m2: Machine)
    requires m.Valid() && r.out == Normal && ValidStack(r.w.stack) && Agrees(m, KBlock(kind, ctx, k), r, m1)
    requires o.Valid() && m == o.(stack := m.stack, control := m.control)
    ensures Leads(m1, m2)
    ensures Agrees(o, k, Left(kind, o.tries.tryTotal, r), m2)
  {
    m2 := Step(m1);
    LeadsStep(m1, m2);
  }

  lemma SimBlock(kind: BlockKind, ctx: ContextId, body: Stmt, k: Cont, m: Machine) returns (m': Machine)
    requires m.Valid() && m.control == Exec(Block(kind, ctx, body), k)
    ensures Leads(m, m') && Agrees(m, k, Eval(Block(kind, ctx, body), m.tries.tryTotal, m.World()), m')
    decreases Block(kind, ctx, body), 0
  {
    EvalBlock(kind, ctx, body, m.tries.tryTotal, m.World());
    hide Eval;
    hide Left;
    var m1 := SimBlockEnter(kind, ctx, body, k, m);
    var m2 := Simulate(body, KBlock(kind, ctx, k), m1);
    var r := Eval(body, m.tries.tryTotal, m1.World());
    LeadsTrans(m, m1, m2);
    if r.out == Normal {
      m' := SimBlockEnd(m1, kind, ctx, k, r, m2, m);
      LeadsTrans(m, m2, m');
    } else {
      AgreesAbrupt(m1, k, KBlock(kind, ctx, k), r, m2);
      m' := m2;
    }
  }

  // ----- The parts of a try -----

  /** A fired try looks at every clause again after a jump and takes none. */
  lemma {:induction false} SimFired(o: Machine, k: Cont, cs: Clauses, finally: Option<Stmt>, started: bool,
                                    t: TryRun, m: Machine, left: Clauses)
    requires Inside(o, k, cs, finally, started, t, m) && t.fired && m.control == Test(left)
    ensures Leads(m, m.(control := ToFinally))
    decreases left
  {
    if left.NoClause? {
      LeadsStep(m, m.(control := ToFinally));
    } else {
      var m1 := m.(control := Test(left.rest));
      LeadsStep(m, m1);
      SimFired(o, k, cs, finally, started, t, m1, left.rest);
      LeadsTrans(m, m1, m.(control := ToFinally));
    }
  }

  /** Where a try is after its clauses have been offered an error. */
  ghost predicate Offered(o: Machine, k: Cont, cs: Clauses, finally: Option<Stmt>, started: bool, t: TryRun, m: Machine) {
    if t.aborted then m.Valid() && (if t.endless then Spins(m) else m.control == Abort) && m.trace == o.trace + t.trace
    else Inside(o, k, cs, finally, started, t, m) && m.control == ToFinally
  }

  lemma {:induction false} SimHandler(o: Machine, k: Cont, cs: Clauses, finally: Option<Stmt>, started: bool,
                                      t: TryRun, m: Machine, r: Run, m1: Machine)
    returns (m2: Machine)
    requires Inside(o, k, cs, finally, started, t, m) && t.fired && !t.pending && !t.aborted
    requires Agrees(m, KTry, r, m1)
    ensures Leads(m1, m2)
    ensures Offered(o, k, cs, finally, started,
                    TryRun(true, true, r.out == Raised, r.out.Aborted?, r.out == Aborted(true), r.w, t.trace + r.trace), m2)
  {
    if r.out.Aborted? {
      m2 := m1;
      LeadsRefl(m1);
    } else {
      m2 := m1.(control := ToFinally);
      var t' := TryRun(t.examined, true, r.out == Raised, false, false, r.w, t.trace + r.trace);
      assert Inside(o, k, cs, finally, started, t', m1);
      if r.out == Normal {
        LeadsStep(m1, m2);
      } else {
        SimFired(o, k, cs, finally, started, t', m1, cs);
      }
    }
  }

  /** Progress once clause result `c` is known, for an error already looked at. */
  ghost function AfterClauses(t: TryRun, c: ClauseRun): TryRun {
    match c
    case Missed => t
    case Caught(h) =>
      TryRun(true, true, h.out == Raised, h.out.Aborted?, h.out == Aborted(true), h.w, t.trace + h.trace)
  }

  /** One clause test of an error already looked at. */
  lemma SimTest(o: Machine, k: Cont, cs: Clauses, finally: Option<Stmt>, started: bool,
                t: TryRun, m: Machine, left: Clauses)
    returns (m1: Machine)
    requires Inside(o, k, cs, finally, started, t, m) && m.control == Test(left) && left.Clause?
    requires t.examined && !t.fired && t.w.rec.Some?
    ensures Leads(m, m1) && m1 == Step(m)
    ensures !Matches(t.w.rec, left.errorType, left.fatal) ==> m1 == m.(control := Test(left.rest))
    ensures Matches(t.w.rec, left.errorType, left.fatal) ==>
              && m1.control == Exec(left.handler, KTry)
              && Inside(o, k, cs, finally, started,
                        t.(fired := true, pending := false, trace := t.trace + [Fired(o.tries.tryTotal + 1)]), m1)
  {
    m1 := Step(m);
    LeadsStep(m, m1);
  }

  lemma {:induction false} SimClauses(o: Machine, k: Cont, cs: Clauses, finally: Option<Stmt>, started: bool,
                                      t: TryRun, m: Machine, left: Clauses)
    returns (m': Machine)
    requires Inside(o, k, cs, finally, started, t, m) && m.control == Test(left)
    requires t.examined && !t.fired && t.pending && !t.aborted && t.w.rec.Some?
    ensures Leads(m, m')
    ensures left.Clause? ==> Leads(Step(m), m')
    ensures Offered(o, k, cs, finally, started, AfterClauses(t, EvalClauses(left, o.tries.tryTotal + 1, t.w)), m')
    decreases left, 0
  {
    hide Eval;
    if left.NoClause? {
      m' := m.(control := ToFinally);
      LeadsStep(m, m');
    } else {
      var m1 := SimTest(o, k, cs, finally, started, t, m, left);
      if Matches(t.w.rec, left.errorType, left.fatal) {
        var level := o.tries.tryTotal + 1;
        var t1 := t.(fired := true, pending := false, trace := t.trace + [Fired(level)]);
        var m2 := Simulate(left.handler, KTry, m1);
        var r := Eval(left.handler, level, t.w);
        m' := SimHandler(o, k, cs, finally, started, t1, m1, r, m2);
        LeadsTrans(m1, m2, m');
        assert t1.trace + r.trace == t.trace + ([Fired(level)] + r.trace);
      } else {
        m' := SimClauses(o, k, cs, finally, started, t, m1, left.rest);
      }
      LeadsTrans(m, m1, m');
    }
  }

  /** The machine with the first look already taken: same next step as taking the look in the first test. */
  ghost function Looked(m: Machine, cs: Clauses): Machine
    requires m.Valid() && cs.Clause? && m.tries.tryTotal > 0
  {
    var left := Cleaned(m.stack, m.tries.tryTotal);
    m.(tries := m.tries.Examine(), stack := left,
       trace := m.trace + (if cs.fatal then [] else Frees(NewOnes(m.stack[|left|..]))))
  }

  lemma LookedStep(m: Machine, cs: Clauses)
    requires m.Valid() && cs.Clause? && m.tries.tryTotal > 0 && m.control == Test(cs) && m.tries.Top().state == InTry
    requires !Stuck(cs, m.tries.tryTotal, false, m.stack)
    ensures Looked(m, cs).Valid() && Step(Looked(m, cs)) == Step(m)
  {
  }

  lemma {:induction false} NewOnesLast(s: Stack)
    requires s != [] && s[|s| - 1].kind == Switch
    ensures NewOnes(s) == NewOnes(s[..|s| - 1])
    decreases |s|
  {
    if |s| > 1 {
      assert s[1..][..|s| - 2] == s[..|s| - 1][1..];
      NewOnesLast(s[1..]);
    }
  }

  lemma {:induction false} CleanedIsShorter(s: Stack, level: nat)
    requires ValidStack(s) && level > 0 && s[|s| - 1].tryDepth >= level
    ensures |s| > 1 && Cleaned(s, level) == Cleaned(s[..|s| - 1], level) && |Cleaned(s, level)| < |s|
  {
  }

  /** What is left is blocked as before. */
  lemma {:induction false} BlockedIsStuck(cs: Clauses, level: nat, s: Stack)
    requires ValidStack(s) && level > 0 && Stuck(cs, level, false, s)
    ensures Stuck(cs, level, false, Blocked(s, level)) && Blocked(Blocked(s, level), level) == Blocked(s, level)
    decreases |s|
  {
    var n := |s| - 1;
    if s[n].tryDepth >= level && s[n].kind == Switch {
      CleanedIsShorter(s, level);
      var c := |Cleaned(s, level)|;
      assert s[c..][..n - c] == s[..n][c..];
      NewOnesLast(s[c..]);
      BlockedIsStuck(cs, level, s[..n]);
    }
  }

  /** The step leads to a state that it leads back to. */
  lemma StuckSpins(m: Machine, cs: Clauses)
    requires m.Valid() && m.control == Test(cs) && cs.Clause? && m.tries.tryTotal > 0 && m.tries.Top().state == InTry
    requires m.frames[m.tries.tryTotal - 1].clauses == cs && Stuck(cs, m.tries.tryTotal, false, m.stack)
    ensures Spins(Step(m)) && Step(m).control == Test(cs) && Step(m).tries.Top().state == InTry && Step(m).trace == m.trace
  {
    hide Stuck;
    hide Blocked;
    hide Cleaned;
    BlockedIsStuck(cs, m.tries.tryTotal, m.stack);
    var m1 := Step(m);
    assert m1.tries.error == Some(AssertError) && m1.tries.Top() == TryEntry(InTry, true);
    assert Step(m1).tries == m1.tries;
  }

  lemma {:induction false} SpinsForEver(m: Machine, n: nat)
    requires Spins(m)
    ensures Steps(m, n) == m
  {
    hide Step;
    if n > 0 {
      SpinsForEver(m, n - 1);
    }
  }

  /** When the first clause of a try begins to look at an error, that look ends, and the try is no longer in its first
      state, exactly when the look is not stuck. */
  lemma FirstLookEndsExactlyWhen(m: Machine, cs: Clauses)
    requires m.Valid() && m.control == Test(cs) && cs.Clause? && m.tries.tryTotal > 0 && m.tries.Top().state == InTry
    requires m.frames[m.tries.tryTotal - 1].clauses == cs
    ensures (exists n: nat :: !LooksAt(Steps(m, n), cs)) <==> !Stuck(cs, m.tries.tryTotal, false, m.stack)
  {
    if Stuck(cs, m.tries.tryTotal, false, m.stack) {
      StuckSpins(m, cs);
      forall n: nat
        ensures LooksAt(Steps(m, n), cs)
      {
        if n > 0 {
          SpinsForEver(Step(m), n - 1);
        }
      }
    } else {
      assert Steps(Step(m), 0) == Step(m);
      assert !LooksAt(Steps(m, 1), cs);
    }
  }

  /** The first clause looks at an error. */
  ghost predicate LooksAt(m: Machine, cs: Clauses) {
    m.Valid() && m.control == Test(cs) && m.tries.Top().state == InTry
  }

  /** An error has come back to the try: the clauses look at it, cleaning up first if none has looked before. */
  lemma SimOffer(o: Machine, k: Cont, cs: Clauses, finally: Option<Stmt>, started: bool, t: TryRun, m: Machine)
    returns (m': Machine)
    requires Inside(o, k, cs, finally, started, t, m) && m.control == Test(cs)
    requires !t.fired && t.pending && !t.aborted && t.w.rec.Some?
    requires !Stuck(cs, o.tries.tryTotal + 1, t.examined, t.w.stack)
    ensures Leads(m, m')
    ensures var level := o.tries.tryTotal + 1;
            var (w, frees) := Look(cs, level, t.examined, t.w);
            Offered(o, k, cs, finally, started,
                    AfterClauses(t.(examined := t.examined || cs.Clause?, w := w, trace := t.trace + frees),
                                 EvalClauses(cs, level, w)), m')
    decreases cs, 1
  {
    if cs.NoClause? {
      m' := m.(control := ToFinally);
      LeadsStep(m, m');
    } else if t.examined {
      m' := SimClauses(o, k, cs, finally, started, t, m, cs);
    } else {
      var level := o.tries.tryTotal + 1;
      var (w, frees) := Look(cs, level, false, t.w);
      LookedStep(m, cs);
      var l := Looked(m, cs);
      var t1 := t.(examined := true, w := w, trace := t.trace + frees);
      assert Inside(o, k, cs, finally, started, t1, l);
      m' := SimClauses(o, k, cs, finally, started, t1, l, cs);
      LeadsStep(m, Step(m));
      LeadsTrans(m, Step(m), m');
    }
  }

  lemma SimStuck(o: Machine, k: Cont, cs: Clauses, finally: Option<Stmt>, started: bool, t: TryRun, m: Machine)
    returns (m': Machine)
    requires Inside(o, k, cs, finally, started, t, m) && m.control == Test(cs) && !t.fired
    requires Stuck(cs, o.tries.tryTotal + 1, t.examined, t.w.stack)
    ensures Leads(m, m') && Spins(m') && m'.trace == m.trace
  {
    m' := Step(m);
    LeadsStep(m, m');
    StuckSpins(m, cs);
  }

  /** A part of the try has ended without an error. */
  lemma SimEnded(o: Machine, k: Cont, cs: Clauses, finally: Option<Stmt>, started: bool,
                 t: TryRun, m: Machine, r: Run, m1: Machine)
    returns (m': Machine)
    requires Inside(o, k, cs, finally, started, t, m) && !t.aborted
    requires ValidRun(r) && r.out != Raised && Agrees(m, KTry, r, m1)
    ensures Leads(m1, m')
    ensures Offered(o, k, cs, finally, started, Absorbed(cs, o.tries.tryTotal + 1, t, r), m')
  {
    if r.out.Aborted? {
      m' := m1;
      LeadsRefl(m1);
    } else {
      m' := m1.(control := ToFinally);
      LeadsStep(m1, m');
    }
  }

  /** A part of the try has come back with an error. */
  lemma SimRaised(o: Machine, k: Cont, cs: Clauses, finally: Option<Stmt>, started: bool,
                  t: TryRun, m: Machine, r: Run, m1: Machine)
    returns (m': Machine)
    requires Inside(o, k, cs, finally, started, t, m) && !t.aborted
    requires ValidRun(r) && r.out == Raised && Agrees(m, KTry, r, m1)
    ensures Leads(m1, m')
    ensures Offered(o, k, cs, finally, started, Absorbed(cs, o.tries.tryTotal + 1, t, r), m')
    decreases cs, 2
  {
    hide Step;
    hide Stuck;
    hide Eval;
    hide Leads;
    var t1 := t.(pending := true, w := r.w, trace := t.trace + r.trace);
    assert Inside(o, k, cs, finally, started, t1, m1);
    if t.fired {
      SimFired(o, k, cs, finally, started, t1, m1, cs);
      m' := m1.(control := ToFinally);
    } else if Stuck(cs, o.tries.tryTotal + 1, t.examined, r.w.stack) {
      m' := SimStuck(o, k, cs, finally, started, t1, m1);
    } else {
      m' := SimOffer(o, k, cs, finally, started, t1, m1);
    }
  }

  /** A part of the try (body or FINALLY block) has run as `r` says. */
  lemma SimAbsorb(o: Machine, k: Cont, cs: Clauses, finally: Option<Stmt>, started: bool,
                  t: TryRun, m: Machine, r: Run, m1: Machine)
    returns (m': Machine)
    requires Inside(o, k, cs, finally, started, t, m) && !t.aborted
    requires ValidRun(r) && Agrees(m, KTry, r, m1)
    ensures Leads(m1, m')
    ensures Offered(o, k, cs, finally, started, Absorbed(cs, o.tries.tryTotal + 1, t, r), m')
    decreases cs, 3
  {
    if r.out == Raised {
      m' := SimRaised(o, k, cs, finally, started, t, m, r, m1);
    } else {
      m' := SimEnded(o, k, cs, finally, started, t, m, r, m1);
    }
  }

  /** Nothing of the try is left to run but errorInternalTryEnd(). */
  lemma SimFinish(o: Machine, k: Cont, cs: Clauses, finally: Option<Stmt>, started: bool, t: TryRun, m: Machine)
    returns (m': Machine)
    requires Inside(o, k, cs, finally, started, t, m) && m.control == ToFinally && !t.aborted
    requires finally == None || started
    ensures Leads(m, m') && Agrees(o, k, Finish(t), m')
  {
    var m1 := m.(control := ToEnd);
    LeadsStep(m, m1);
    var e := m1.(tries := m1.tries.End(), frames := o.frames);
    assert m1.frames[..m1.tries.tryTotal - 1] == o.frames;
    assert e.tries.tryList[..o.tries.tryTotal] == o.tries.tryList[..o.tries.tryTotal];
    m' := if t.pending then Raise(e) else e.(control := Return(k));
    LeadsStep(m1, m');
    LeadsTrans(m, m1, m');
  }

  lemma SimTryEnter(body: Stmt, cs: Clauses, finally: Option<Stmt>, k: Cont, m: Machine) returns (m1: Machine)
    requires m.Valid() && m.control == Exec(Try(body, cs, finally), k) && m.tries.tryTotal < ERROR_TRY_MAX
    ensures Leads(m, m1) && m1.control == Exec(body, KTry)
    ensures Inside(m, k, cs, finally, false, Start(m.tries.tryTotal + 1, m.World()), m1)
  {
    m1 := Step(m);
    LeadsStep(m, m1);
  }

  lemma SimFinallyEnter(k: Cont, cs: Clauses, finally: Option<Stmt>, o: Machine, t: TryRun, m: Machine)
    returns (m1: Machine)
    requires Inside(o, k, cs, finally, false, t, m) && m.control == ToFinally && finally.Some?
    ensures Leads(m, m1) && m1.control == Exec(finally.value, KTry)
    ensures Inside(o, k, cs, finally, true, Finalizing(o.tries.tryTotal + 1, t), m1)
  {
    m1 := Step(m);
    assert m1.frames == o.frames + [Frame(cs, finally, k, true)];
    LeadsStep(m, m1);
  }

  lemma SimFinally(body: Stmt, cs: Clauses, finally: Option<Stmt>, k: Cont, o: Machine, t: TryRun, m: Machine)
    returns (m': Machine)
    requires Inside(o, k, cs, finally, false, t, m) && m.control == ToFinally && finally.Some? && !t.aborted
    ensures Leads(m, m')
    ensures var level := o.tries.tryTotal + 1;
            var f := Eval(finally.value, level, t.w);
            Agrees(o, k, Finish(Absorbed(cs, level, Finalizing(level, t), f)), m')
    decreases Try(body, cs, finally), 0
  {
    var level := o.tries.tryTotal + 1;
    var f := Eval(finally.value, level, t.w);
    var m1 := SimFinallyEnter(k, cs, finally, o, t, m);
    var m2 := Simulate(finally.value, KTry, m1);
    var m3 := SimAbsorb(o, k, cs, finally, true, Finalizing(level, t), m1, f, m2);
    var t2 := Absorbed(cs, level, Finalizing(level, t), f);
    LeadsTrans(m, m1, m2);
    LeadsTrans(m, m2, m3);
    if t2.aborted {
      m' := m3;
    } else {
      m' := SimFinish(o, k, cs, finally, true, t2, m3);
      LeadsTrans(m, m3, m');
    }
  }

  lemma SimTry(body: Stmt, cs: Clauses, finally: Option<Stmt>, k: Cont, m: Machine) returns (m': Machine)
    requires m.Valid() && m.control == Exec(Try(body, cs, finally), k) && m.tries.tryTotal < ERROR_TRY_MAX
    ensures Leads(m, m') && Agrees(m, k, TryResult(body, cs, finally, m.tries.tryTotal, m.World()), m')
    decreases Try(body, cs, finally), 1
  {
    var level := m.tries.tryTotal + 1;
    var m1 := SimTryEnter(body, cs, finally, k, m);
    var m2 := Simulate(body, KTry, m1);
    var b := Eval(body, level, m.World());
    var m3 := SimAbsorb(m, k, cs, finally, false, Start(level, m.World()), m1, b, m2);
    var t := Absorbed(cs, level, Start(level, m.World()), b);
    LeadsTrans(m, m1, m2);
    LeadsTrans(m, m2, m3);
    if t.aborted {
      m' := m3;
    } else {
      if finally == None {
        m' := SimFinish(m, k, cs, finally, false, t, m3);
      } else {
        m' := SimFinally(body, cs, finally, k, m, t, m3);
      }
      LeadsTrans(m, m3, m');
    }
  }

  // ----- Agreement -----

  lemma SimRaise(s: Stmt, k: Cont, m: Machine) returns (m': Machine)
    requires m.Valid() && m.control == Exec(s, k)
    requires s.Throw? || s.Rethrow? || (s.Try? && m.tries.tryTotal >= ERROR_TRY_MAX)
    ensures Leads(m, m') && Agrees(m, k, Eval(s, m.tries.tryTotal, m.World()), m')
  {
    var rec := if s.Throw? then Some(s.errorType) else if s.Rethrow? then m.tries.error else Some(AssertError);
    var m1 := m.(tries := m.tries.(error := rec));
    RaiseAgrees(m, k, TryPrograms.World(rec, m.stack), m1);
    m' := Raise(m1);
    LeadsStep(m, m');
  }

  /** The machine runs every statement as the structured semantics says, whatever surrounds it. */
  lemma Simulate(s: Stmt, k: Cont, m: Machine) returns (m': Machine)
    requires m.Valid() && m.control == Exec(s, k)
    ensures Leads(m, m') && Agrees(m, k, Eval(s, m.tries.tryTotal, m.World()), m')
    decreases s, 2
  {
    if s.Seq? {
      m' := SimSeq(s.first, s.second, k, m);
    } else if s.Block? {
      m' := SimBlock(s.kind, s.ctx, s.body, k, m);
    } else if s.Try? && m.tries.tryTotal < ERROR_TRY_MAX {
      EvalTry(s.body, s.clauses, s.finally, m.tries.tryTotal, m.World());
      m' := SimTry(s.body, s.clauses, s.finally, k, m);
    } else if s.Skip? || s.Act? {
      m' := Step(m);
      LeadsStep(m, m');
    } else {
      m' := SimRaise(s, k, m);
    }
  }

  ghost function Initial(s: Stmt, top: ContextId): Machine {
    Machine(Exec(s, Halt), Tries(0, seq(ERROR_TRY_MAX + 1, _ => TryEntry(InTry, false)), None), [], [Entry(top, Switch, 0)], [])
  }

  /** A whole program: same observations, same ending, and no try left active. */
  lemma ProgramAgrees(s: Stmt, top: ContextId) returns (m: Machine)
    ensures Leads(Initial(s, top), m) && Step(m) == m
    ensures var r := Eval(s, 0, TryPrograms.World(None, [Entry(top, Switch, 0)]));
            && m.trace == r.trace
            && (!r.out.Aborted? ==> m.World() == r.w && m.tries.tryTotal == 0)
            && match r.out
               case Normal => m.control == Return(Halt)
               case Raised => m.control == Exit
               case Aborted(endless) => if endless then Spins(m) else m.control == Abort
  {
    m := Simulate(s, Halt, Initial(s, top));
  }

  // ----- A program without end -----

  /** A statement in `n` more tries. */
  function Nest(n: nat, s: Stmt): Stmt {
    if n == 0 then s else Try(Nest(n - 1, s), NoClause, None)
  }

  lemma {:induction false} NestAborts(n: nat, s: Stmt, depth: nat, w: World)
    requires ValidStack(w.stack) && depth + n <= ERROR_TRY_MAX && Eval(s, depth + n, w).out.Aborted?
    ensures Eval(Nest(n, s), depth, w).out == Eval(s, depth + n, w).out
    decreases n
  {
    hide Eval;
    if n > 0 {
      NestAborts(n - 1, s, depth + 1, w);
      EvalTry(Nest(n - 1, s), NoClause, None, depth, w);
    }
  }

  /** An error in a block with a new context at the nesting limit: whatever the error and the clauses, if the first of them
      is not for fatal errors, cleaning up has no end. */
  lemma CleanUpHasNoEnd(ctx: ContextId, e: ErrorType, cs: Clauses, finally: Option<Stmt>, w: World)
    requires ValidStack(w.stack) && w.stack[|w.stack| - 1].tryDepth < ERROR_TRY_MAX && cs.Clause? && !cs.fatal
    ensures Eval(Try(Block(NewKept, ctx, Throw(e)), cs, finally), ERROR_TRY_MAX - 1, w).out == Aborted(true)
  {
    var level := ERROR_TRY_MAX;
    var body := Block(NewKept, ctx, Throw(e));
    BlockRaises(ctx, e, level, w);
    EvalTry(body, cs, finally, level - 1, w);
    hide Eval;
    hide Stuck;
    NewContextIsStuck(cs, ctx, w.stack);
  }

  lemma BlockRaises(ctx: ContextId, e: ErrorType, depth: nat, w: World)
    requires ValidStack(w.stack)
    ensures Eval(Block(NewKept, ctx, Throw(e)), depth, w) ==
            Run(Raised, TryPrograms.World(Some(e), w.stack + Pushed(NewKept, ctx, depth)), [])
  {
    EvalBlock(NewKept, ctx, Throw(e), depth, w);
  }

  lemma NewContextIsStuck(cs: Clauses, ctx: ContextId, s: Stack)
    requires ValidStack(s) && s[|s| - 1].tryDepth < ERROR_TRY_MAX && cs.Clause? && !cs.fatal
    ensures Stuck(cs, ERROR_TRY_MAX, false, s + Pushed(NewKept, ctx, ERROR_TRY_MAX))
  {
    hide Cleaned;
    var section := Pushed(NewKept, ctx, ERROR_TRY_MAX);
    CleanedSection(s, section, ERROR_TRY_MAX);
    assert (s + section)[|s|..] == section;
    assert section[1..] == [Entry(ctx, Switch, ERROR_TRY_MAX)] && NewOnes(section[1..]) == [];
    assert NewOnes(section) == [ctx];
  }

  /** So the machine runs such a program, 64 tries deep, into a state that it never leaves. */
  lemma ProgramHasNoEnd(top: ContextId, ctx: ContextId, e: ErrorType, cs: Clauses) returns (m: Machine)
    requires cs.Clause? && !cs.fatal
    ensures Leads(Initial(Nest(ERROR_TRY_MAX - 1, Try(Block(NewKept, ctx, Throw(e)), cs, None)), top), m) && Spins(m)
  {
    hide Eval;
    hide Leads;
    hide Spins;
    var w := TryPrograms.World(None, [Entry(top, Switch, 0)]);
    var s := Try(Block(NewKept, ctx, Throw(e)), cs, None);
    CleanUpHasNoEnd(ctx, e, cs, None, w);
    NestAborts(ERROR_TRY_MAX - 1, s, 0, w);
    m := ProgramAgrees(Nest(ERROR_TRY_MAX - 1, s), top);
  }
}
