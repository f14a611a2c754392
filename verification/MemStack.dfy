/** The stack of memory contexts: what is current, and what has to be unwound after an error. */
module MemStack {

  const MEM_CONTEXT_STACK_MAX: nat := 128

  type ContextId = nat

  /** Switch entries can be current; New entries are only tracked so that an error can free them. */
  datatype Kind = Switch | New

  datatype Entry = Entry(ctx: ContextId, kind: Kind, tryDepth: nat)

  type Stack = seq<Entry>

  /** The bottom entry is the top context, pushed outside of any try. */
  ghost predicate ValidStack(s: Stack) {
    |s| > 0 && s[0].kind == Switch && s[0].tryDepth == 0
  }

  /** Index of the highest entry that can be current. */
  ghost function LastSwitch(s: Stack): (i: nat)
    requires ValidStack(s)
    ensures i < |s| && s[i].kind == Switch
    ensures forall j | i < j < |s| :: s[j].kind == New
  {
    if s[|s| - 1].kind == Switch then |s| - 1 else LastSwitch(s[..|s| - 1])
  }

  ghost function Current(s: Stack): ContextId
    requires ValidStack(s)
  {
    s[LastSwitch(s)].ctx
  }

  /** What memContextClean() leaves: entries are popped while they belong to the failed try or a deeper one. */
  ghost function Cleaned(s: Stack, depth: nat): (r: Stack)
    requires ValidStack(s) && depth > 0
    ensures ValidStack(r) && r <= s && r[|r| - 1].tryDepth < depth
  {
    if s[|s| - 1].tryDepth >= depth then Cleaned(s[..|s| - 1], depth) else s
  }

  /** Contexts of the New entries of a stack section, innermost first. */
  ghost function NewOnes(s: Stack): seq<ContextId> {
    if s == [] then [] else NewOnes(s[1..]) + (if s[0].kind == New then [s[0].ctx] else [])
  }

  lemma LastSwitchUnique(s: Stack, i: nat)
    requires ValidStack(s) && i < |s| && s[i].kind == Switch
    requires forall j | i < j < |s| :: s[j].kind == New
    ensures i == LastSwitch(s)
  {
  }

  /** Loop invariant of memContextClean(): `s` is what is left of `was`, `freed` what has been freed. */
  ghost predicate CleanedSoFar(was: Stack, s: Stack, depth: nat, freed: seq<ContextId>)
    requires ValidStack(was) && depth > 0
  {
    ValidStack(s) && s <= was && Cleaned(s, depth) == Cleaned(was, depth) && freed == NewOnes(was[|s|..])
  }

  lemma PopStep(was: Stack, s: Stack, depth: nat, freed: seq<ContextId>)
    requires ValidStack(was) && depth > 0
    requires CleanedSoFar(was, s, depth, freed) && s[|s| - 1].tryDepth >= depth
    ensures |s| > 1
    ensures CleanedSoFar(was, s[..|s| - 1], depth,
                         freed + (if s[|s| - 1].kind == New then [s[|s| - 1].ctx] else []))
  {
  }

  /** Cleaning removes exactly a section that belongs to the try, and stops at the entry below it. */
  lemma {:induction false} CleanedSection(base: Stack, section: Stack, depth: nat)
    requires ValidStack(base) && depth > 0 && base[|base| - 1].tryDepth < depth
    requires forall e | e in section :: e.tryDepth >= depth
    ensures ValidStack(base + section) && Cleaned(base + section, depth) == base
  {
    if section == [] {
      assert base + section == base;
    } else {
      var rest := section[..|section| - 1];
      assert (base + section)[..|base + section| - 1] == base + rest;
      assert section[|section| - 1] in section;
      CleanedSection(base, rest, depth);
    }
  }

  /** memContextStack with its two indexes. */
  class ContextStack {
    const list: array<Entry>
    var currentIdx: nat
    var maxIdx: nat

    /** Current is the highest switch entry at or below the top. */
    ghost predicate Valid()
      reads this, list
    {
      && list.Length == MEM_CONTEXT_STACK_MAX
      && maxIdx < list.Length
      && ValidStack(View())
      && currentIdx == LastSwitch(View())
    }

    ghost function View(): Stack
      requires maxIdx < list.Length
      reads this, list
    {
      list[..maxIdx + 1]
    }

    constructor (top: ContextId)
      ensures Valid() && fresh(list)
      ensures View() == [Entry(top, Switch, 0)]
    {
      list := new Entry[MEM_CONTEXT_STACK_MAX](_ => Entry(top, Switch, 0));
      currentIdx, maxIdx := 0, 0;
    }

    /** Tail of memContextNew(): track the new context without switching to it. */
    method PushNew(ctx: ContextId, tryDepth: nat)
      requires Valid() && maxIdx < MEM_CONTEXT_STACK_MAX - 1
      modifies this`maxIdx, list
      ensures Valid() && currentIdx == old(currentIdx)
      ensures View() == old(View()) + [Entry(ctx, New, tryDepth)]
    {
      maxIdx := maxIdx + 1;
      list[maxIdx] := Entry(ctx, New, tryDepth);
      assert View() == old(View()) + [Entry(ctx, New, tryDepth)];
      LastSwitchUnique(View(), currentIdx);
    }

    /** memContextSwitch() */
    method SwitchTo(ctx: ContextId, tryDepth: nat)
      requires Valid() && maxIdx < MEM_CONTEXT_STACK_MAX - 1
      modifies this, list
      ensures Valid() && View() == old(View()) + [Entry(ctx, Switch, tryDepth)]
      ensures Current(View()) == ctx
    {
      maxIdx := maxIdx + 1;
      currentIdx := maxIdx;
      list[currentIdx] := Entry(ctx, Switch, tryDepth);
      assert View() == old(View()) + [Entry(ctx, Switch, tryDepth)];
    }

    /** Step current down over New entries, starting just below `from`. */
    method Descend(from: nat) returns (idx: nat)
      requires maxIdx < list.Length && ValidStack(View()) && 0 < from <= maxIdx + 1
      ensures idx == LastSwitch(list[..from])
    {
      idx := from - 1;
      while list[idx].kind == New
        invariant idx < from
        invariant forall j | idx < j < from :: list[j].kind == New
        decreases idx
      {
        idx := idx - 1;
      }
      LastSwitchUnique(list[..from], idx);
    }

    /** memContextSwitchBack() */
    method SwitchBack()
      requires Valid() && currentIdx > 0 && currentIdx == maxIdx
      modifies this
      ensures Valid() && View() == old(View()[..maxIdx])
    {
      maxIdx := maxIdx - 1;
      currentIdx := Descend(maxIdx + 1);
      assert View() == old(View()[..maxIdx]);
    }

    /** memContextKeep(), and memContextDiscard() once the context has been freed: forget the New entry. */
    method PopNew() returns (ctx: ContextId)
      requires Valid() && View()[maxIdx].kind == New
      modifies this`maxIdx
      ensures Valid() && currentIdx == old(currentIdx)
      ensures View() == old(View()[..maxIdx]) && ctx == old(View()[maxIdx].ctx)
    {
      ctx := list[maxIdx].ctx;
      maxIdx := maxIdx - 1;
      assert View() == old(View()[..maxIdx]);
      LastSwitchUnique(View(), currentIdx);
    }

    /** One turn of the memContextClean() loop: drop the top entry, freeing a context that was not kept. */
    method Unwind(fatal: bool) returns (freed: seq<ContextId>)
      requires Valid() && maxIdx > 0
      modifies this
      ensures Valid() && View() == old(View()[..maxIdx])
      ensures freed == if !fatal && old(View()[maxIdx].kind) == New then [old(View()[maxIdx].ctx)] else []
    {
      freed := [];
      if list[maxIdx].kind == New {
        if !fatal {
          freed := [list[maxIdx].ctx];
        }
      } else {
        currentIdx := Descend(maxIdx);
      }
      maxIdx := maxIdx - 1;
      assert View() == old(View()[..maxIdx]);
      LastSwitchUnique(View(), currentIdx);
    }

    /** memContextClean(): unwind to the enclosing try and report what has been freed, in order. */
    method Clean(tryDepth: nat, fatal: bool) returns (freed: seq<ContextId>)
      requires Valid() && tryDepth > 0
      modifies this
      ensures Valid() && View() == Cleaned(old(View()), tryDepth)
      ensures freed == if fatal then [] else NewOnes(old(View())[|View()|..])
    {
      freed := [];
      ghost var was, s, popped := View(), View(), [];
      while list[maxIdx].tryDepth >= tryDepth
        invariant Valid() && View() == s
        invariant CleanedSoFar(was, s, tryDepth, popped)
        invariant freed == if fatal then [] else popped
        decreases maxIdx
      {
        PopStep(was, s, tryDepth, popped);
        popped := popped + (if s[|s| - 1].kind == New then [s[|s| - 1].ctx] else []);
        var f := Unwind(fatal);
        freed := freed + f;
        s := s[..|s| - 1];
      }
    }
  }
}
