/** Error types and the "is an instance of" test used by CATCH. */
module ErrorTypes {

  /** An error type knows its parent; a root type is its own parent, as RuntimeError is. */
  datatype ErrorType =
    | Root(code: int, fatal: bool)
    | Derived(code: int, fatal: bool, parentType: ErrorType)

  const RuntimeError := Root(122, false)
  const AssertError := Derived(25, true, RuntimeError)

  function Parent(t: ErrorType): ErrorType {
    if t.Root? then t else t.parentType
  }

  /** `t` is on the parent chain that starts at `e` itself. */
  predicate IsA(e: ErrorType, t: ErrorType) {
    e == t || (e.Derived? && IsA(e.parentType, t))
  }

  /** errorTypeExtends(): climb the chain until the root has been compared. */
  method Extends(child: ErrorType, parent: ErrorType) returns (found: bool)
    ensures found <==> IsA(Parent(child), parent)
  {
    var find := Parent(child);
    while find != parent
      invariant IsA(Parent(child), parent) <==> IsA(find, parent)
      decreases find
    {
      if find == Parent(find) {
        return false;
      }
      find := Parent(find);
    }
    return true;
  }

  /** errorInstanceOf() */
  method InstanceOf(e: ErrorType, test: ErrorType) returns (instance: bool)
    ensures instance <==> IsA(e, test)
  {
    if e == test {
      return true;
    }
    instance := Extends(e, test);
  }

  /** Climbing is transitive, so a clause for a type accepts everything its subtypes' clauses accept. */
  lemma {:induction false} IsATransitive(a: ErrorType, b: ErrorType, c: ErrorType)
    requires IsA(a, b) && IsA(b, c)
    ensures IsA(a, c)
  {
    if a != b {
      IsATransitive(a.parentType, b, c);
    }
  }
}
