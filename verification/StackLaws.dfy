/** Memory contexts across errors: what cleaning restores, when, and what a normally ending statement leaves behind. */
module StackLaws {
  import opened Wrappers
  import opened ErrorTypes
  import opened ErrorContext
  import opened MemStack
  import opened TryPrograms

  ghost function TopDepth(s: Stack): nat
    requires s != []
  {
    s[|s| - 1].tryDepth
  }

  /** The entries from `floor` on were pushed at try depth `bound` or deeper. */
  ghost predicate Above(s: Stack, floor: nat, bound: nat) {
    0 < floor <= |s| && forall i | floor <= i < |s| :: s[i].tryDepth >= bound
  }

  /** `s'` still has the first `floor` entries of `s`, and only deep entries above them. */
  ghost predicate Stands(s: Stack, s': Stack, floor: nat, bound: nat) {
    floor <= |s| && Above(s', floor, bound) && s'[..floor] == s[..floor]
  }

  lemma StandsTrans(a: Stack, b: Stack, c: Stack, floor: nat, bound: nat)
    requires Stands(a, b, floor, bound) && Stands(b, c, floor, bound)
    ensures Stands(a, c, floor, bound)
  {
  }

  lemma {:induction false} CleanedStands(s: Stack, floor: nat, bound: nat, level: nat)
    requires ValidStack(s) && Above(s, floor, bound) && 0 < level && s[floor - 1].tryDepth < level
    ensures Stands(s, Cleaned(s, level), floor, bound)
    decreases |s|
  {
    if TopDepth(s) >= level {
      assert floor < |s|;
      CleanedStands(s[..|s| - 1], floor, bound, level);
      assert s[..|s| - 1][..floor] == s[..floor];
    }
  }

  lemma LookStands(cs: Clauses, level: nat, examined: bool, w: World, floor: nat, bound: nat)
    requires ValidStack(w.stack) && Above(w.stack, floor, bound) && 0 < level && w.stack[floor - 1].tryDepth < level
    ensures Stands(w.stack, Look(cs, level, examined, w).0.stack, floor, bound)
  {
    CleanedStands(w.stack, floor, bound, level);
  }

  /** Taking off at most what was pushed leaves the base standing. */
  lemma PoppedStands(base: Stack, pushed: Stack, s: Stack, n: nat, floor: nat, bound: nat)
    requires Above(base, floor, bound) && base <= pushed && Stands(pushed, s, |pushed|, bound) && |base| <= n <= |s|
    requires forall i | |base| <= i < |pushed| :: pushed[i].tryDepth >= bound
    ensures Stands(base, s[..n], floor, bound)
  {
    assert s[..floor] == s[..|pushed|][..floor] == base[..floor];
    forall i | floor <= i < n
      ensures s[i].tryDepth >= bound
    {
      assert i < |pushed| ==> s[i] == s[..|pushed|][i] == pushed[i];
    }
  }

  lemma LeftStands(base: Stack, kind: BlockKind, ctx: ContextId, depth: nat, r: Run, floor: nat, bound: nat)
    requires Above(base, floor, bound) && ValidStack(r.w.stack) && bound <= depth
    requires var pushed := base + Pushed(kind, ctx, depth); Stands(pushed, r.w.stack, |pushed|, bound)
    ensures !Left(kind, depth, r).out.Aborted? ==> Stands(base, Left(kind, depth, r).w.stack, floor, bound)
  {
    hide Stands;
    hide Above;
    var s := r.w.stack;
    var pushed := base + Pushed(kind, ctx, depth);
    assert |pushed| <= |s| by {
      StandsIsLonger(pushed, s, bound);
    }
    PoppedStands(base, pushed, s, |s| - 1, floor, bound);
    if kind != With {
      PoppedStands(base, pushed, s, |s| - 2, floor, bound);
    }
  }

  lemma PushedStands(base: Stack, kind: BlockKind, ctx: ContextId, depth: nat, floor: nat, bound: nat)
    requires ValidStack(base) && Above(base, floor, bound) && bound <= depth
    ensures var pushed := base + Pushed(kind, ctx, depth);
            && ValidStack(pushed) && base <= pushed && TopDepth(pushed) == depth && floor <= |base|
            && Above(pushed, |pushed|, bound) && Above(pushed, floor, bound)
  {
  }

  lemma StandsIsLonger(base: Stack, s: Stack, bound: nat)
    requires Stands(base, s, |base|, bound)
    ensures |base| <= |s|
  {
  }

  lemma StandsLower(base: Stack, more: Stack, s: Stack, floor: nat, bound: nat)
    requires base <= more && Above(more, floor, bound) && floor <= |base| && Stands(more, s, |more|, bound)
    ensures Stands(base, s, floor, bound)
  {
  }

  /** No statement pops an entry that was there before it, below one pushed at its own try depth or outside. */
  lemma {:induction false} EvalStands(s: Stmt, depth: nat, w: World, floor: nat, bound: nat)
    requires ValidStack(w.stack) && Above(w.stack, floor, bound) && bound <= depth
    requires w.stack[floor - 1].tryDepth <= depth
    ensures var r := Eval(s, depth, w);
            !r.out.Aborted? ==> Stands(w.stack, r.w.stack, floor, bound)
    decreases s, 2
  {
    match s
    case Seq(a, b) =>
      var r := Eval(a, depth, w);
      EvalStands(a, depth, w, floor, bound);
      if r.out == Normal {
        assert r.w.stack[..floor][floor - 1] == w.stack[floor - 1];
        EvalStands(b, depth, r.w, floor, bound);
      }
    case Block(kind, ctx, body) =>
      BlockStands(kind, ctx, body, depth, w, floor, bound);
    case Try(body, cs, finally) =>
      if depth < ERROR_TRY_MAX {
        EvalTry(body, cs, finally, depth, w);
        TryStands(body, cs, finally, depth, w, floor, bound);
      }
    case Skip =>
    case Act(_) =>
    case Throw(_) =>
    case Rethrow =>
  }

  lemma {:induction false} BlockStands(kind: BlockKind, ctx: ContextId, body: Stmt, depth: nat, w: World, floor: nat, bound: nat)
    requires ValidStack(w.stack) && Above(w.stack, floor, bound) && bound <= depth
    requires w.stack[floor - 1].tryDepth <= depth
    ensures var r := Eval(Block(kind, ctx, body), depth, w);
            !r.out.Aborted? ==> Stands(w.stack, r.w.stack, floor, bound)
    decreases Block(kind, ctx, body), 1
  {
    hide Stands;
    hide Above;
    hide Pushed;
    hide ValidStack;
    hide Left;
    EvalBlock(kind, ctx, body, depth, w);
    hide Eval;
    PushedStands(w.stack, kind, ctx, depth, floor, bound);
    var pushed := w.stack + Pushed(kind, ctx, depth);
    var r := Eval(body, depth, w.(stack := pushed));
    EvalStands(body, depth, w.(stack := pushed), |pushed|, bound);
    if r.out == Normal {
      LeftStands(w.stack, kind, ctx, depth, r, floor, bound);
    } else if r.out == Raised {
      StandsLower(w.stack, pushed, r.w.stack, floor, bound);
    }
  }

  lemma {:induction false} ClausesStand(cs: Clauses, level: nat, w: World, floor: nat, bound: nat)
    requires ValidStack(w.stack) && Above(w.stack, floor, bound) && bound <= level
    requires w.stack[floor - 1].tryDepth <= level
    ensures match EvalClauses(cs, level, w)
            case Missed => true
            case Caught(h) => !h.out.Aborted? ==> Stands(w.stack, h.w.stack, floor, bound)
    decreases cs, 0
  {
    if cs.Clause? {
      if Matches(w.rec, cs.errorType, cs.fatal) {
        EvalStands(cs.handler, level, w, floor, bound);
      } else {
        ClausesStand(cs.rest, level, w, floor, bound);
      }
    }
  }

  lemma {:induction false} AbsorbedStands(cs: Clauses, level: nat, t: TryRun, r: Run, s: Stack, floor: nat, bound: nat)
    requires level > 0 && ValidRun(r) && bound <= level && !t.aborted
    requires !r.out.Aborted? ==> Stands(s, r.w.stack, floor, bound)
    requires 0 < floor <= |s| && s[floor - 1].tryDepth < level
    ensures var u := Absorbed(cs, level, t, r);
            !u.aborted ==> Stands(s, u.w.stack, floor, bound)
    decreases cs, 1
  {
    if r.out == Raised && !t.fired {
      assert r.w.stack[..floor][floor - 1] == s[floor - 1];
      var w := Look(cs, level, t.examined, r.w).0;
      LookStands(cs, level, t.examined, r.w, floor, bound);
      StandsTrans(s, r.w.stack, w.stack, floor, bound);
      assert w.stack[..floor][floor - 1] == s[floor - 1];
      ClausesStand(cs, level, w, floor, bound);
    }
  }

  lemma {:induction false} TryStands(body: Stmt, cs: Clauses, finally: Option<Stmt>, depth: nat, w: World, floor: nat, bound: nat)
    requires ValidStack(w.stack) && Above(w.stack, floor, bound) && bound <= depth < ERROR_TRY_MAX
    requires w.stack[floor - 1].tryDepth <= depth
    ensures var r := TryResult(body, cs, finally, depth, w);
            !r.out.Aborted? ==> Stands(w.stack, r.w.stack, floor, bound)
    decreases Try(body, cs, finally), 1
  {
    var level := depth + 1;
    var b := Eval(body, level, w);
    EvalStands(body, level, w, floor, bound);
    AbsorbedStands(cs, level, Start(level, w), b, w.stack, floor, bound);
    var t := Absorbed(cs, level, Start(level, w), b);
    if finally.Some? && !t.aborted {
      FinallyStands(body, cs, finally, level, w.stack, t, floor, bound);
    }
  }

  lemma {:induction false} FinallyStands(body: Stmt, cs: Clauses, finally: Option<Stmt>, level: nat,
                                         s: Stack, t: TryRun, floor: nat, bound: nat)
    requires finally.Some? && ValidStack(t.w.stack) && !t.aborted && Stands(s, t.w.stack, floor, bound)
    requires bound < level && s[floor - 1].tryDepth < level
    ensures var u := Absorbed(cs, level, Finalizing(level, t), Eval(finally.value, level, t.w));
            !u.aborted ==> Stands(s, u.w.stack, floor, bound)
    decreases Try(body, cs, finally), 0
  {
    assert t.w.stack[..floor][floor - 1] == s[floor - 1];
    var f := Eval(finally.value, level, t.w);
    EvalStands(finally.value, level, t.w, floor, bound);
    if !f.out.Aborted? {
      StandsTrans(s, t.w.stack, f.w.stack, floor, bound);
    }
    AbsorbedStands(cs, level, Finalizing(level, t), f, s, floor, bound);
  }

  /** When a clause of a try looks at the error of its body, cleaning puts the context stack back as it was at
      TRY_BEGIN exactly if the entry then on top did not come from a deeper try. */
  lemma FirstLookRestores(body: Stmt, depth: nat, w: World)
    requires ValidStack(w.stack) && Eval(body, depth + 1, w).out == Raised
    ensures Cleaned(Eval(body, depth + 1, w).w.stack, depth + 1) == w.stack <==> TopDepth(w.stack) <= depth
  {
    hide Eval;
    if TopDepth(w.stack) <= depth {
      var s := Eval(body, depth + 1, w).w.stack;
      EvalStands(body, depth + 1, w, |w.stack|, depth + 1);
      var section := s[|w.stack|..];
      assert s == w.stack + section;
      forall e | e in section ensures e.tryDepth >= depth + 1 {
        var i :| 0 <= i < |section| && e == section[i];
        assert s[|w.stack| + i] == e;
      }
      CleanedSection(w.stack, section, depth + 1);
    }
  }

  // ----- What a normally ending try leaves behind -----

  /** The clause that takes the error of `w`, if any, leaves the stack as it was when it ends normally. */
  ghost predicate HandlerRestores(cs: Clauses, level: nat, w: World)
    requires ValidStack(w.stack)
  {
    match EvalClauses(cs, level, w)
    case Missed => true
    case Caught(h) => h.out == Normal ==> h.w.stack == w.stack
  }

  /** Each part of a try that runs and ends normally leaves the stack as it was. */
  ghost predicate PartsRestore(body: Stmt, cs: Clauses, finally: Option<Stmt>, depth: nat, w: World)
    requires ValidStack(w.stack)
  {
    var level := depth + 1;
    var b := Eval(body, level, w);
    var t := Absorbed(cs, level, Start(level, w), b);
    && (b.out == Normal ==> b.w.stack == w.stack)
    && (b.out == Raised ==> HandlerRestores(cs, level, Look(cs, level, false, b.w).0))
    && (finally.Some? && !t.aborted ==>
          var f := Eval(finally.value, level, t.w);
          && (f.out == Normal && !t.pending ==> f.w.stack == t.w.stack)
          && (f.out == Raised && !t.fired ==> HandlerRestores(cs, level, Look(cs, level, t.examined, f.w).0)))
  }

  /** A clause has looked at the error of the body without taking it, and one takes the error of the FINALLY block, which
      has changed the stack. */
  ghost predicate Late(body: Stmt, cs: Clauses, finally: Option<Stmt>, depth: nat, w: World)
    requires ValidStack(w.stack)
  {
    var level := depth + 1;
    var b := Eval(body, level, w);
    var t := Absorbed(cs, level, Start(level, w), b);
    && b.out == Raised && cs.Clause? && !t.fired && !t.aborted && finally.Some?
    && var f := Eval(finally.value, level, t.w);
       f.out == Raised && EvalClauses(cs, level, f.w).Caught? && f.w.stack != w.stack
  }

  /** After the body: no error, or one that a clause took, and the stack is back; or an error is still pending. */
  lemma AfterBody(body: Stmt, cs: Clauses, finally: Option<Stmt>, depth: nat, w: World)
    requires ValidStack(w.stack) && TopDepth(w.stack) <= depth && PartsRestore(body, cs, finally, depth, w)
    ensures var b := Eval(body, depth + 1, w);
            var t := Absorbed(cs, depth + 1, Start(depth + 1, w), b);
            && (!t.aborted && !t.pending ==> t.w.stack == w.stack && (t.fired <==> b.out == Raised))
            && (!t.aborted && t.pending ==> b.out == Raised && (t.examined <==> cs.Clause?))
            && (b.out == Normal ==> !t.examined && !t.fired && !t.pending)
  {
    var b := Eval(body, depth + 1, w);
    if b.out == Raised {
      FirstLookRestores(body, depth, w);
    }
  }

  /** After a FINALLY block that began on the stack of TRY_BEGIN. */
  lemma AfterFinally(cs: Clauses, finally: Stmt, depth: nat, t: TryRun)
    requires ValidStack(t.w.stack) && TopDepth(t.w.stack) <= depth && !t.aborted && !t.pending && (t.examined ==> t.fired)
    requires var f := Eval(finally, depth + 1, t.w);
             && (f.out == Normal ==> f.w.stack == t.w.stack)
             && (f.out == Raised && !t.fired ==> HandlerRestores(cs, depth + 1, Look(cs, depth + 1, t.examined, f.w).0))
    ensures var u := Absorbed(cs, depth + 1, Finalizing(depth + 1, t), Eval(finally, depth + 1, t.w));
            !u.aborted && !u.pending ==> u.w.stack == t.w.stack
  {
    var f := Eval(finally, depth + 1, t.w);
    if f.out == Raised {
      FirstLookRestores(finally, depth, t.w);
    }
  }

  /** A try that begins on a stack without stale entries, whose parts restore it, and that ends normally has restored it
      exactly when it was not late. A late one ends with the stack that its FINALLY block has left. */
  lemma TryRestoresExactlyWhen(body: Stmt, cs: Clauses, finally: Option<Stmt>, depth: nat, w: World)
    requires ValidStack(w.stack) && TopDepth(w.stack) <= depth && PartsRestore(body, cs, finally, depth, w)
    requires TryResult(body, cs, finally, depth, w).out == Normal
    ensures TryResult(body, cs, finally, depth, w).w.stack == w.stack <==> !Late(body, cs, finally, depth, w)
    ensures Late(body, cs, finally, depth, w) ==>
              var t := Absorbed(cs, depth + 1, Start(depth + 1, w), Eval(body, depth + 1, w));
              TryResult(body, cs, finally, depth, w).w.stack == Eval(finally.value, depth + 1, t.w).w.stack
  {
    hide Eval;
    hide Cleaned;
    var level := depth + 1;
    var t := Absorbed(cs, level, Start(level, w), Eval(body, level, w));
    AfterBody(body, cs, finally, depth, w);
    if finally.Some? && !t.aborted && !t.pending {
      AfterFinally(cs, finally.value, depth, t);
    }
  }

  // ----- What a normally ending statement leaves behind -----

  /** No try that matters for the stack is late in a run of the statement. */
  ghost predicate NeverLate(s: Stmt, depth: nat, w: World)
    requires ValidStack(w.stack)
    decreases s
  {
    match s
    case Seq(a, b) =>
      NeverLate(a, depth, w) && (Eval(a, depth, w).out == Normal ==> NeverLate(b, depth, Eval(a, depth, w).w))
    case Block(kind, ctx, body) => NeverLate(body, depth, w.(stack := w.stack + Pushed(kind, ctx, depth)))
    case Try(body, cs, finally) =>
      depth < ERROR_TRY_MAX ==>
        var level := depth + 1;
        var b := Eval(body, level, w);
        var t := Absorbed(cs, level, Start(level, w), b);
        && NeverLate(body, level, w)
        && (b.out == Raised ==> ClausesNeverLate(cs, level, Look(cs, level, false, b.w).0))
        && (finally.Some? && !t.aborted ==>
              var f := Eval(finally.value, level, t.w);
              && (!t.pending ==> NeverLate(finally.value, level, t.w))
              && (f.out == Raised && !t.fired ==> ClausesNeverLate(cs, level, Look(cs, level, t.examined, f.w).0)))
        && !Late(body, cs, finally, depth, w)
    case _ => true
  }

  ghost predicate ClausesNeverLate(cs: Clauses, level: nat, w: World)
    requires ValidStack(w.stack)
    decreases cs
  {
    cs.Clause? ==>
      if Matches(w.rec, cs.errorType, cs.fatal) then NeverLate(cs.handler, level, w) else ClausesNeverLate(cs.rest, level, w)
  }

  lemma LeaveUndoesPush(kind: BlockKind, ctx: ContextId, depth: nat, s: Stack)
    requires ValidStack(s)
    ensures Leave(kind, s + Pushed(kind, ctx, depth)) == Some((s, if kind == NewTemp then [Freed(ctx)] else []))
  {
  }

  lemma {:induction false} NeverLateHandler(cs: Clauses, level: nat, w: World)
    requires ValidStack(w.stack) && TopDepth(w.stack) <= level && ClausesNeverLate(cs, level, w)
    ensures HandlerRestores(cs, level, w)
    decreases cs, 0
  {
    if cs.Clause? {
      if Matches(w.rec, cs.errorType, cs.fatal) {
        NeverLateRestores(cs.handler, level, w);
      } else {
        NeverLateHandler(cs.rest, level, w);
      }
    }
  }

  lemma {:induction false} BodyNeverLate(body: Stmt, cs: Clauses, finally: Option<Stmt>, depth: nat, w: World)
    requires ValidStack(w.stack) && TopDepth(w.stack) <= depth < ERROR_TRY_MAX && NeverLate(Try(body, cs, finally), depth, w)
    ensures var b := Eval(body, depth + 1, w);
            && (b.out == Normal ==> b.w.stack == w.stack)
            && (b.out == Raised ==> Look(cs, depth + 1, false, b.w).0.stack == if cs.Clause? then w.stack else b.w.stack)
            && (b.out == Raised ==> HandlerRestores(cs, depth + 1, Look(cs, depth + 1, false, b.w).0))
    decreases Try(body, cs, finally), 0
  {
    var b := Eval(body, depth + 1, w);
    NeverLateRestores(body, depth + 1, w);
    if b.out == Raised && cs.Clause? {
      FirstLookRestores(body, depth, w);
      NeverLateHandler(cs, depth + 1, Look(cs, depth + 1, false, b.w).0);
    }
  }

  lemma {:induction false} FinallyNeverLate(body: Stmt, cs: Clauses, finally: Option<Stmt>, depth: nat, w: World, t: TryRun)
    requires ValidStack(w.stack) && TopDepth(w.stack) <= depth < ERROR_TRY_MAX && NeverLate(Try(body, cs, finally), depth, w)
    requires t == Absorbed(cs, depth + 1, Start(depth + 1, w), Eval(body, depth + 1, w)) && finally.Some? && !t.aborted
    requires !t.pending ==> t.w.stack == w.stack && (t.examined ==> t.fired)
    requires t.pending ==> Eval(body, depth + 1, w).out == Raised && (t.examined <==> cs.Clause?)
    ensures var f := Eval(finally.value, depth + 1, t.w);
            && (f.out == Normal && !t.pending ==> f.w.stack == t.w.stack)
            && (f.out == Raised && !t.fired ==> HandlerRestores(cs, depth + 1, Look(cs, depth + 1, t.examined, f.w).0))
    decreases Try(body, cs, finally), 0
  {
    var level := depth + 1;
    var f := Eval(finally.value, level, t.w);
    if !t.pending {
      NeverLateRestores(finally.value, level, t.w);
      if f.out == Raised && !t.fired && cs.Clause? {
        FirstLookRestores(finally.value, depth, t.w);
        NeverLateHandler(cs, level, Look(cs, level, t.examined, f.w).0);
      }
    } else if f.out == Raised && !t.fired && cs.Clause? {
      assert Look(cs, level, t.examined, f.w).0 == f.w;
      if EvalClauses(cs, level, f.w).Caught? {
        assert f.w.stack == w.stack;
        NeverLateHandler(cs, level, f.w);
      }
    }
  }

  lemma {:induction false} TryNeverLate(body: Stmt, cs: Clauses, finally: Option<Stmt>, depth: nat, w: World)
    requires ValidStack(w.stack) && TopDepth(w.stack) <= depth < ERROR_TRY_MAX && NeverLate(Try(body, cs, finally), depth, w)
    ensures var r := TryResult(body, cs, finally, depth, w);
            r.out == Normal ==> r.w.stack == w.stack
    decreases Try(body, cs, finally), 1
  {
    var level := depth + 1;
    var b := Eval(body, level, w);
    var t := Absorbed(cs, level, Start(level, w), b);
    BodyNeverLate(body, cs, finally, depth, w);
    assert PartsRestore(body, cs, None, depth, w);
    AfterBody(body, cs, None, depth, w);
    if finally.Some? && !t.aborted {
      FinallyNeverLate(body, cs, finally, depth, w, t);
    }
    if TryResult(body, cs, finally, depth, w).out == Normal {
      TryRestoresExactlyWhen(body, cs, finally, depth, w);
    }
  }

  /** A statement that starts on a stack without stale entries, is never late and ends normally leaves the stack as it
      was. */
  lemma {:induction false} NeverLateRestores(s: Stmt, depth: nat, w: World)
    requires ValidStack(w.stack) && TopDepth(w.stack) <= depth && NeverLate(s, depth, w)
    ensures Eval(s, depth, w).out == Normal ==> Eval(s, depth, w).w.stack == w.stack
    decreases s, 2
  {
    match s
    case Seq(a, b) =>
      NeverLateRestores(a, depth, w);
      var r := Eval(a, depth, w);
      if r.out == Normal {
        NeverLateRestores(b, depth, r.w);
      }
    case Block(kind, ctx, body) =>
      NeverLateRestores(body, depth, w.(stack := w.stack + Pushed(kind, ctx, depth)));
      LeaveUndoesPush(kind, ctx, depth, w.stack);
    case Try(body, cs, finally) =>
      if depth < ERROR_TRY_MAX {
        EvalTry(body, cs, finally, depth, w);
        TryNeverLate(body, cs, finally, depth, w);
      }
    case _ =>
  }

  // ----- Where it fails -----

  const FORMAT_ERROR := Derived(29, false, RuntimeError)
  const JSON_FORMAT_ERROR := Derived(99, false, RuntimeError)

  /** A try whose clause has looked at one error and then catches another from its own FINALLY block does not clean
      again: the block that the second error left stays on the stack although the try ends normally. */
  lemma LateCatchLeaks(top: ContextId, ctx: ContextId)
    ensures var w := World(None, [Entry(top, Switch, 0)]);
            var s := Try(Throw(FORMAT_ERROR), Clause(JSON_FORMAT_ERROR, false, Skip, NoClause),
                         Some(Block(With, ctx, Throw(JSON_FORMAT_ERROR))));
            Eval(s, 0, w).out == Normal && Eval(s, 0, w).w.stack == w.stack + [Entry(ctx, Switch, 1)]
  {
    var w := World(None, [Entry(top, Switch, 0)]);
    var cs := Clause(JSON_FORMAT_ERROR, false, Skip, NoClause);
    var b := Eval(Throw(FORMAT_ERROR), 1, w);
    assert Cleaned(b.w.stack, 1) == b.w.stack;
    var t := Absorbed(cs, 1, Start(1, w), b);
    assert t.examined && !t.fired && t.pending && t.w.stack == w.stack;
    var thrown := Throw(JSON_FORMAT_ERROR);
    assert Eval(thrown, 1, t.w.(stack := t.w.stack + Pushed(With, ctx, 1))).out == Raised;
    var f := Eval(Block(With, ctx, thrown), 1, t.w);
    assert f.out == Raised && f.w.stack == w.stack + [Entry(ctx, Switch, 1)];
    var u := Absorbed(cs, 1, Finalizing(1, t), f);
    assert u.fired && !u.pending;
  }

  /** A try in the FINALLY block of an outer try starts on a stack with an entry left by a deeper try, and cleaning
      removes that entry as well. */
  lemma StaleEntryIsCleanedToo(top: ContextId, ctx: ContextId)
    ensures var w := World(None, [Entry(top, Switch, 0)]);
            var inner := Try(Block(With, ctx, Throw(FORMAT_ERROR)), NoClause, Some(Skip));
            var atFinally := Eval(inner, 1, w).w;
            && TopDepth(atFinally.stack) == 2
            && Current(atFinally.stack) == ctx
            && Cleaned(Eval(Throw(FORMAT_ERROR), 2, atFinally).w.stack, 2) == w.stack
  {
    var w := World(None, [Entry(top, Switch, 0)]);
    var thrown := Throw(FORMAT_ERROR);
    assert Eval(thrown, 2, w.(stack := w.stack + Pushed(With, ctx, 2))).out == Raised;
    var b := Eval(Block(With, ctx, thrown), 2, w);
    var stack := w.stack + [Entry(ctx, Switch, 2)];
    assert b.out == Raised && b.w.stack == stack;
    var t := Absorbed(NoClause, 2, Start(2, w), b);
    assert t.pending && t.w == b.w;
    var f := Eval(Skip, 2, t.w);
    assert Absorbed(NoClause, 2, Finalizing(2, t), f).w == b.w;
    assert stack[..1] == w.stack;
    assert Cleaned(stack, 2) == Cleaned(w.stack, 2) == w.stack;
  }

  // ----- The context inside and after a block -----

  /** MEM_CONTEXT_BEGIN(), MEM_CONTEXT_NEW_BEGIN() and MEM_CONTEXT_TEMP_BEGIN(): a new context is tracked, and the context
      becomes current. */
  method EnterBlock(s: ContextStack, kind: BlockKind, ctx: ContextId, tryDepth: nat)
    requires s.Valid() && s.maxIdx < MEM_CONTEXT_STACK_MAX - 2
    modifies s, s.list
    ensures s.Valid() && s.View() == old(s.View()) + Pushed(kind, ctx, tryDepth)
    ensures Current(s.View()) == ctx
  {
    if kind != With {
      s.PushNew(ctx, tryDepth);
    }
    s.SwitchTo(ctx, tryDepth);
  }

  /** MEM_CONTEXT_END(), MEM_CONTEXT_NEW_END() and MEM_CONTEXT_TEMP_END(): the outer context becomes current again, and a
      tracked context is kept, or else it is to be freed. */
  method LeaveBlock(s: ContextStack, kind: BlockKind) returns (freed: Option<ContextId>)
    requires s.Valid() && Leave(kind, s.View()).Some?
    modifies s, s.list
    ensures s.Valid() && Leave(kind, old(s.View())) == Some((s.View(), if freed.Some? then [Freed(freed.value)] else []))
    ensures freed.Some? <==> kind == NewTemp
  {
    freed := None;
    ghost var was := s.View();
    ghost var n := |was| - 1;
    s.SwitchBack();
    assert s.View() == was[..n];
    if kind != With {
      var ctx := s.PopNew();
      assert s.View() == was[..n - 1];
      if kind == NewTemp {
        freed := Some(ctx);
      }
    }
  }

  lemma PushedIsCurrent(kind: BlockKind, ctx: ContextId, depth: nat, s: Stack)
    requires ValidStack(s)
    ensures Current(s + Pushed(kind, ctx, depth)) == ctx
  {
  }

  /** What a block does first it does in its own context. */
  lemma BlockRunsInItsContext(kind: BlockKind, ctx: ContextId, id: nat, body: Stmt, depth: nat, w: World)
    requires ValidStack(w.stack)
    ensures var trace := Eval(Block(kind, ctx, Seq(Act(id), body)), depth, w).trace;
            trace != [] && trace[0] == Acted(id, ctx)
  {
    var inside := w.(stack := w.stack + Pushed(kind, ctx, depth));
    PushedIsCurrent(kind, ctx, depth, w.stack);
    EvalBlock(kind, ctx, Seq(Act(id), body), depth, w);
    EvalSeq(Act(id), body, depth, inside);
    hide Current;
    hide Pushed;
    assert Eval(Act(id), depth, inside) == Run(Normal, inside, [Acted(id, ctx)]);
  }

  lemma EvalSeq(a: Stmt, b: Stmt, depth: nat, w: World)
    requires ValidStack(w.stack)
    ensures var r := Eval(a, depth, w);
            Eval(Seq(a, b), depth, w) ==
            if r.out != Normal then r else Eval(b, depth, r.w).(trace := r.trace + Eval(b, depth, r.w).trace)
  {
  }

  /** What comes after a block that ends normally and is never late is done in the context from before it, and the stack is
      as it was. */
  lemma BlockReturnsToOuterContext(kind: BlockKind, ctx: ContextId, body: Stmt, id: nat, depth: nat, w: World)
    requires ValidStack(w.stack) && TopDepth(w.stack) <= depth && NeverLate(Block(kind, ctx, body), depth, w)
    requires Eval(Block(kind, ctx, body), depth, w).out == Normal
    ensures var r := Eval(Seq(Block(kind, ctx, body), Act(id)), depth, w);
            && r.out == Normal && r.w.stack == w.stack
            && r.trace == Eval(Block(kind, ctx, body), depth, w).trace + [Acted(id, Current(w.stack))]
  {
    NeverLateRestores(Block(kind, ctx, body), depth, w);
    EvalSeq(Block(kind, ctx, body), Act(id), depth, w);
  }

  // ----- At the nesting limit -----

  /** A temporary block whose body ends normally and is never late ends normally exactly below the nesting limit, with its
      context freed. At the limit it throws, and the context stays behind as an entry to be cleaned up. */
  lemma TempBlockEndsExactlyWhen(ctx: ContextId, body: Stmt, depth: nat, w: World)
    requires ValidStack(w.stack)
    requires var inside := w.(stack := w.stack + Pushed(NewTemp, ctx, depth));
             NeverLate(body, depth, inside) && Eval(body, depth, inside).out == Normal
    ensures var b := Eval(body, depth, w.(stack := w.stack + Pushed(NewTemp, ctx, depth)));
            var r := Eval(Block(NewTemp, ctx, body), depth, w);
            && (r.out == Normal <==> depth < ERROR_TRY_MAX)
            && (depth < ERROR_TRY_MAX ==> r == Run(Normal, b.w.(stack := w.stack), b.trace + [Freed(ctx)]))
            && (depth >= ERROR_TRY_MAX ==>
                  r == Run(Raised, World(Some(AssertError), w.stack + [Entry(ctx, New, depth)]), b.trace))
  {
    hide Eval;
    hide NeverLate;
    var pushed := w.stack + Pushed(NewTemp, ctx, depth);
    NeverLateRestores(body, depth, w.(stack := pushed));
    EvalBlock(NewTemp, ctx, body, depth, w);
    LeaveUndoesPush(NewTemp, ctx, depth, w.stack);
    assert pushed[..|pushed| - 1] == w.stack + [Entry(ctx, New, depth)];
  }
}
