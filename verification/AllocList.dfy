/** The allocation list of a memory context that may hold many allocations. */
module AllocList {
  import opened Wrappers

  const MEM_CONTEXT_ALLOC_INITIAL_SIZE: nat := 4
  const HEADER_SIZE: nat := 8
  const UINT_SIZE: nat := 0x1_0000_0000

  type AllocId = nat

  /** Placed in front of every allocation; the size field has 32 bits. */
  datatype Header = Header(allocIdx: nat, size: nat)

  /** The list, its free index and the headers of the live allocations. */
  datatype Allocs = Allocs(initialized: bool, list: seq<Option<AllocId>>, freeIdx: nat, headers: map<AllocId, Header>) {

    /** Every slot below freeIdx is taken, and slots and headers name each other. */
    ghost predicate Valid() {
      && (initialized ==> |list| >= MEM_CONTEXT_ALLOC_INITIAL_SIZE)
      && (!initialized ==> list == [] && headers == map[])
      && freeIdx <= |list|
      && (forall i | 0 <= i < freeIdx :: list[i].Some?)
      && (forall i | 0 <= i < |list| && list[i].Some? :: list[i].value in headers && headers[list[i].value].allocIdx == i)
      && (forall a | a in headers :: headers[a].allocIdx < |list| && list[headers[a].allocIdx] == Some(a))
    }

    /** Allocate more room: the first list, or twice the list when no slot is free. */
    function Grown(): Allocs {
      if !initialized then this.(initialized := true, list := seq(MEM_CONTEXT_ALLOC_INITIAL_SIZE, _ => None), freeIdx := 0)
      else if FirstFree(list, freeIdx) == |list| then this.(list := list + seq(|list|, _ => None), freeIdx := |list|)
      else this.(freeIdx := FirstFree(list, freeIdx))
    }

    /** memContextAllocNew() */
    function New(a: AllocId, size: nat): Allocs
      requires Grown().freeIdx < |Grown().list|
    {
      var g := Grown();
      Allocs(true, g.list[g.freeIdx := Some(a)], g.freeIdx + 1,
             g.headers[a := Header(g.freeIdx, (HEADER_SIZE + size) % UINT_SIZE)])
    }

    /** memContextAllocResize(), where realloc() has moved allocation `a` to `b` */
    function Resize(a: AllocId, b: AllocId, size: nat): Allocs
      requires a in headers && headers[a].allocIdx < |list|
    {
      var h := headers[a];
      this.(list := list[h.allocIdx := Some(b)],
            headers := (headers - {a})[b := h.(size := (HEADER_SIZE + size) % UINT_SIZE)])
    }

    /** memFree() */
    function Free(a: AllocId): Allocs
      requires a in headers && headers[a].allocIdx < |list|
    {
      var i := headers[a].allocIdx;
      this.(list := list[i := None], freeIdx := if i < freeIdx then i else freeIdx, headers := headers - {a})
    }
  }

  /** A context that has not allocated anything. */
  const EMPTY := Allocs(false, [], 0, map[])

  /** Lowest free slot at or after `from`, or the length of the list. */
  function FirstFree(list: seq<Option<AllocId>>, from: nat): (i: nat)
    ensures from <= |list| ==> from <= i <= |list|
    ensures i < |list| ==> list[i].None?
    ensures forall j | from <= j < i && j < |list| :: list[j].Some?
    decreases |list| - from
  {
    if from >= |list| then from else if list[from].None? then from else FirstFree(list, from + 1)
  }

  /** Number of taken slots. */
  function Live(list: seq<Option<AllocId>>): nat {
    if list == [] then 0 else Live(list[..|list| - 1]) + (if list[|list| - 1].Some? then 1 else 0)
  }

  lemma {:induction false} LiveBound(list: seq<Option<AllocId>>)
    ensures Live(list) <= |list|
    ensures (forall i | 0 <= i < |list| :: list[i].Some?) ==> Live(list) == |list|
    ensures (forall i | 0 <= i < |list| :: list[i].None?) ==> Live(list) == 0
  {
    if list != [] {
      LiveBound(list[..|list| - 1]);
    }
  }

  lemma {:induction false} LiveUpdate(list: seq<Option<AllocId>>, i: nat, v: Option<AllocId>)
    requires i < |list|
    ensures Live(list[i := v]) == Live(list) - (if list[i].Some? then 1 else 0) + (if v.Some? then 1 else 0)
  {
    var n := |list| - 1;
    if i == n {
      assert list[i := v][..n] == list[..n];
    } else {
      LiveUpdate(list[..n], i, v);
      assert list[i := v][..n] == list[..n][i := v];
    }
  }

  lemma {:induction false} LiveAppend(list: seq<Option<AllocId>>, more: seq<Option<AllocId>>)
    ensures Live(list + more) == Live(list) + Live(more)
  {
    if more == [] {
      assert list + more == list;
    } else {
      assert (list + more)[..|list + more| - 1] == list + more[..|more| - 1];
      LiveAppend(list, more[..|more| - 1]);
    }
  }

  // ----- Runs -----

  datatype Op = OpNew(a: AllocId, size: nat) | OpResize(a: AllocId, b: AllocId, size: nat) | OpFree(a: AllocId)

  /** The source demands a live allocation to resize or free; malloc() and realloc() return no live address. */
  ghost predicate Legal(s: Allocs, op: Op) {
    match op
    case OpNew(a, _) => a !in s.headers
    case OpResize(a, b, _) => a in s.headers && (b == a || b !in s.headers)
    case OpFree(a) => a in s.headers
  }

  ghost function Apply(s: Allocs, op: Op): (r: Allocs)
    requires s.Valid() && Legal(s, op)
    ensures r.Valid() && r.initialized
  {
    match op
    case OpNew(a, size) => NewValid(s, a, size); s.New(a, size)
    case OpResize(a, b, size) => ResizeValid(s, a, b, size); s.Resize(a, b, size)
    case OpFree(a) => FreeValid(s, a); s.Free(a)
  }

  lemma NewValid(s: Allocs, a: AllocId, size: nat)
    requires s.Valid() && a !in s.headers
    ensures s.Grown().freeIdx < |s.Grown().list| && s.New(a, size).Valid()
  {
    GrownValid(s);
  }

  lemma ResizeValid(s: Allocs, a: AllocId, b: AllocId, size: nat)
    requires s.Valid() && a in s.headers && (b == a || b !in s.headers)
    ensures s.Resize(a, b, size).Valid()
  {
  }

  lemma FreeValid(s: Allocs, a: AllocId)
    requires s.Valid() && a in s.headers
    ensures s.Free(a).Valid()
  {
  }

  /** All states of a run, first to last. */
  ghost predicate IsRun(states: seq<Allocs>, ops: seq<Op>) {
    && |states| == |ops| + 1
    && states[0] == EMPTY
    && forall i | 0 <= i < |ops| :: states[i].Valid() && Legal(states[i], ops[i]) && states[i + 1] == Apply(states[i], ops[i])
  }

  /** Growing keeps everything where it is and makes the free index name the lowest free slot. */
  lemma GrownValid(s: Allocs)
    requires s.Valid()
    ensures var g := s.Grown();
            && g.Valid()
            && s.list <= g.list && g.headers == s.headers
            && g.freeIdx < |g.list| && g.list[g.freeIdx].None?
  {
  }

  /** The list grows only when it is full, and then doubles. */
  lemma GrownSize(s: Allocs)
    requires s.Valid()
    ensures var g := s.Grown();
            && Live(g.list) == Live(s.list)
            && (|g.list| > |s.list| ==> Live(s.list) == |s.list| && |g.list| == (if s.list == [] then 4 else 2 * |s.list|))
  {
    LiveBound(s.list);
    var more := s.Grown().list[|s.list|..];
    LiveBound(more);
    LiveAppend(s.list, more);
    assert s.Grown().list == s.list + more;
  }

  /** A new allocation goes to the lowest free slot of all. */
  lemma LowestSlotFirst(s: Allocs, a: AllocId, size: nat)
    requires s.Valid() && a !in s.headers
    ensures var r := Apply(s, OpNew(a, size));
            var i := r.headers[a].allocIdx;
            && (forall j | 0 <= j < i :: j < |s.list| && s.list[j].Some?)
            && (i < |s.list| ==> s.list[i].None?)
            && (forall b | b in s.headers :: b in r.headers && r.headers[b] == s.headers[b])
  {
  }

  ghost function Peak(states: seq<Allocs>): nat {
    if states == [] then 0
    else
      var p := Peak(states[..|states| - 1]);
      var n := Live(states[|states| - 1].list);
      if n > p then n else p
  }

  ghost function SizeLimit(peak: nat): int {
    if peak >= 3 then 2 * (peak - 1) else 4
  }

  lemma {:induction false} ApplySize(s: Allocs, op: Op, peak: nat)
    requires s.Valid() && Legal(s, op) && Live(s.list) <= peak && |s.list| <= SizeLimit(peak)
    ensures var r := Apply(s, op);
            |r.list| <= SizeLimit(if Live(r.list) > peak then Live(r.list) else peak)
  {
    if op.OpNew? {
      GrownValid(s);
      GrownSize(s);
      var g := s.Grown();
      LiveUpdate(g.list, g.freeIdx, Some(op.a));
    }
  }

  /** Over every run the list has invariants Valid() and never exceeds max(4, 2 * (peak live - 1)). */
  lemma {:induction false} RunSize(states: seq<Allocs>, ops: seq<Op>)
    requires IsRun(states, ops)
    ensures states[|ops|].Valid()
    ensures Live(states[|ops|].list) <= Peak(states) && |states[|ops|].list| <= SizeLimit(Peak(states))
  {
    var n := |ops|;
    if n > 0 {
      assert states[..n][..n - 1] == states[..n - 1];
      RunSize(states[..n], ops[..n - 1]);
      ApplySize(states[n - 1], ops[n - 1], Peak(states[..n]));
    }
  }

  // ----- As the code does it -----

  class AllocMany {
    var initialized: bool
    var list: array<Option<AllocId>>
    var freeIdx: nat
    var headers: map<AllocId, Header>

    ghost predicate Valid()
      reads this, list
    {
      View().Valid()
    }

    ghost function View(): Allocs
      reads this, list
    {
      Allocs(initialized, list[..], freeIdx, headers)
    }

    constructor ()
      ensures Valid() && fresh(list)
      ensures View() == EMPTY
    {
      initialized, freeIdx, headers := false, 0, map[];
      list := new Option<AllocId>[0];
      new;
      assert list[..] == [];
    }

    /** The search for a slot in memContextAllocNew() */
    method FindSlot()
      requires Valid()
      modifies this
      ensures Valid() && View() == old(View()).Grown()
      ensures list == old(list) || fresh(list)
    {
      GrownValid(View());
      ghost var was := View();
      if !initialized {
        list := new Option<AllocId>[MEM_CONTEXT_ALLOC_INITIAL_SIZE](_ => None);
        freeIdx, initialized := 0, true;
        assert list[..] == was.Grown().list;
        return;
      }
      while freeIdx < list.Length && list[freeIdx].Some?
        invariant freeIdx <= list.Length && list == old(list) && initialized && headers == was.headers
        invariant list[..] == was.list && FirstFree(was.list, freeIdx) == FirstFree(was.list, was.freeIdx)
        decreases list.Length - freeIdx
      {
        freeIdx := freeIdx + 1;
      }
      if freeIdx == list.Length {
        var size := list.Length;
        var larger := new Option<AllocId>[size * 2];
        forall i | 0 <= i < size * 2 {
          larger[i] := if i < size then list[i] else None;
        }
        list := larger;
        assert list[..] == was.Grown().list;
      }
    }

    method New(a: AllocId, size: nat)
      requires Valid() && a !in headers
      modifies this, list
      ensures Valid() && View() == Apply(old(View()), OpNew(a, size))
    {
      GrownValid(View());
      FindSlot();
      headers := headers[a := Header(freeIdx, (HEADER_SIZE + size) % UINT_SIZE)];
      list[freeIdx] := Some(a);
      freeIdx := freeIdx + 1;
      assert View() == Apply(old(View()), OpNew(a, size));
    }

    method Resize(a: AllocId, b: AllocId, size: nat)
      requires Valid() && a in headers && (b == a || b !in headers)
      modifies this, list
      ensures Valid() && View() == Apply(old(View()), OpResize(a, b, size))
    {
      var h := headers[a].(size := (HEADER_SIZE + size) % UINT_SIZE);
      headers := (headers - {a})[b := h];
      list[h.allocIdx] := Some(b);
      assert View() == Apply(old(View()), OpResize(a, b, size));
    }

    method Free(a: AllocId)
      requires Valid() && a in headers
      modifies this, list
      ensures Valid() && View() == Apply(old(View()), OpFree(a))
    {
      var i := headers[a].allocIdx;
      if i < freeIdx {
        freeIdx := i;
      }
      list[i] := None;
      headers := headers - {a};
      assert View() == Apply(old(View()), OpFree(a));
    }
  }
}
