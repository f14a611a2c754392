/** The try stack of error.c: per-try state, the uncaught flag and the one global error record. */
module ErrorContext {
  import opened Wrappers
  import opened ErrorTypes

  const ERROR_TRY_MAX: nat := 64

  datatype State = InTry | InCatch | AtEnd

  datatype TryEntry = TryEntry(state: State, uncaught: bool)

  /** Value of errorContext; entries of tryList above tryTotal are stale. */
  datatype Tries = Tries(tryTotal: nat, tryList: seq<TryEntry>, error: Option<ErrorType>) {

    ghost predicate Valid() {
      |tryList| == ERROR_TRY_MAX + 1 && tryTotal <= ERROR_TRY_MAX
    }

    function Top(): TryEntry
      requires Valid()
    {
      tryList[tryTotal]
    }

    function SetTop(e: TryEntry): Tries
      requires Valid()
    {
      this.(tryList := tryList[tryTotal := e])
    }

    /** errorInternalTryBegin() within the nesting limit */
    function Begin(): Tries
      requires Valid() && tryTotal < ERROR_TRY_MAX
    {
      this.(tryTotal := tryTotal + 1, tryList := tryList[tryTotal + 1 := TryEntry(InTry, false)])
    }

    /** errorInternalPropagate() up to the jump */
    function Mark(): Tries
      requires Valid()
    {
      SetTop(Top().(uncaught := true))
    }

    /** First half of errorInternalCatch(): the first clause that looks at an error leaves the try state. */
    function Examine(): Tries
      requires Valid()
    {
      if Top().state == InTry then SetTop(Top().(state := InCatch)) else this
    }

    /** Second half of errorInternalCatch(): does a clause for (t, fatal) accept the recorded error? */
    predicate Accepts(t: ErrorType, fatal: bool)
      requires Valid()
    {
      Top().state == InCatch && error.Some? && IsA(error.value, t) && (fatal || !error.value.fatal)
    }

    function Fire(): Tries
      requires Valid()
    {
      SetTop(TryEntry(AtEnd, false))
    }

    /** errorInternalTryEnd() up to the propagation test */
    function End(): Tries
      requires Valid() && tryTotal > 0
    {
      this.(tryTotal := tryTotal - 1, error := if Top() == TryEntry(AtEnd, false) then None else error)
    }
  }

  /** Where errorInternalPropagate() sends control: a jump buffer, or process exit. */
  datatype Jump = JumpTo(index: nat) | ExitProcess

  /** errorContext as the code keeps it, changed in place. */
  class Context {
    var tryTotal: nat
    const tryList: array<TryEntry>
    var error: Option<ErrorType>

    ghost predicate Valid()
      reads this
    {
      tryList.Length == ERROR_TRY_MAX + 1 && tryTotal <= ERROR_TRY_MAX
    }

    ghost function View(): (v: Tries)
      requires Valid()
      reads this, tryList
      ensures v.Valid()
    {
      Tries(tryTotal, tryList[..], error)
    }

    constructor ()
      ensures Valid() && fresh(tryList)
      ensures View().tryTotal == 0 && View().error == None
    {
      tryTotal, error := 0, None;
      tryList := new TryEntry[ERROR_TRY_MAX + 1](_ => TryEntry(InTry, false));
    }

    method TryBegin() returns (jump: Option<Jump>)
      requires Valid()
      modifies this, tryList
      ensures Valid()
      ensures old(tryTotal) < ERROR_TRY_MAX ==> jump == None && View() == old(View()).Begin()
      ensures old(tryTotal) >= ERROR_TRY_MAX ==>
                && View() == old(View()).(error := Some(AssertError)).Mark()
                && jump == Some(JumpTo(tryTotal - 1))
    {
      if tryTotal >= ERROR_TRY_MAX {
        var j := Throw(AssertError);
        return Some(j);
      }
      tryTotal := tryTotal + 1;
      tryList[tryTotal] := TryEntry(InTry, false);
      jump := None;
    }

    /** True when the clause accepts; `clean` tells whether the cleanup handlers have to run first. */
    method Catch(t: ErrorType, fatal: bool) returns (clean: bool, caught: bool)
      requires Valid() && error.Some?
      modifies tryList
      ensures Valid()
      ensures clean <==> old(View()).Top().state == InTry
      ensures caught <==> old(View()).Examine().Accepts(t, fatal)
      ensures View() == if caught then old(View()).Examine().Fire() else old(View()).Examine()
    {
      clean := tryList[tryTotal].state == InTry;
      if clean {
        tryList[tryTotal] := tryList[tryTotal].(state := InCatch);
      }
      caught := false;
      if tryList[tryTotal].state == InCatch && (fatal || !error.value.fatal) {
        var instance := InstanceOf(error.value, t);
        if instance {
          tryList[tryTotal] := TryEntry(AtEnd, false);
          caught := true;
        }
      }
    }

    method Propagate() returns (jump: Jump)
      requires Valid()
      modifies tryList
      ensures Valid() && View() == old(View()).Mark()
      ensures jump == if tryTotal > 0 then JumpTo(tryTotal - 1) else ExitProcess
    {
      tryList[tryTotal] := tryList[tryTotal].(uncaught := true);
      jump := if tryTotal > 0 then JumpTo(tryTotal - 1) else ExitProcess;
    }

    method Throw(t: ErrorType) returns (jump: Jump)
      requires Valid()
      modifies this, tryList
      ensures Valid() && View() == old(View()).(error := Some(t)).Mark()
      ensures jump == if tryTotal > 0 then JumpTo(tryTotal - 1) else ExitProcess
    {
      error := Some(t);
      jump := Propagate();
    }

    /** None when the try ended normally, otherwise where the still uncaught error goes. */
    method TryEnd() returns (jump: Option<Jump>)
      requires Valid() && tryTotal > 0
      modifies this, tryList
      ensures Valid()
      ensures !old(View()).Top().uncaught ==> jump == None && View() == old(View()).End()
      ensures old(View()).Top().uncaught ==>
                && View() == old(View()).End().Mark()
                && jump == Some(if tryTotal > 0 then JumpTo(tryTotal - 1) else ExitProcess)
    {
      if tryList[tryTotal] == TryEntry(AtEnd, false) {
        error := None;
      }
      tryTotal := tryTotal - 1;
      if tryList[tryTotal + 1].uncaught {
        var j := Propagate();
        return Some(j);
      }
      jump := None;
    }
  }
}
