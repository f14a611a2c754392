/** Memory contexts as the code keeps them, and the proof that freeing one takes away its subtree and nothing else. */
module ContextHeap {
  import opened Wrappers
  import opened ContextTree
  import opened ContextFree
  import AllocList

  // ----- What freeing leaves -----

  /** `r` is `h` without the subtree of `c`, with the slot that held `c` empty. */
  ghost predicate Removed(h: Contexts, r: Contexts, sh: Shape, c: Id)
    requires Valid(h, sh) && c in h && c != TOP
  {
    assert Linked(h, c);
    var p := h[c].parent.value;
    && r.Keys == h.Keys - Subtree(h, sh, c)
    && (forall x | x in r && x != p :: r[x] == h[x])
    && p in r && r[p] == h[p].Cleared(h[c].parentIdx, true)
  }

  lemma ParentStays(h: Contexts, r: Contexts, sh: Shape, c: Id, x: Id)
    requires Valid(h, sh) && c in h && c != TOP && r.Keys == h.Keys - Subtree(h, sh, c)
    requires x in r && x != TOP
    ensures Linked(h, x) && h[x].parent.value in r
  {
    assert Linked(h, x);
  }

  lemma RemovedLinked(h: Contexts, r: Contexts, sh: Shape, c: Id)
    requires Valid(h, sh) && c in h && c != TOP && Removed(h, r, sh, c)
    ensures AllLinked(r)
  {
    assert Under(h, sh, c, c);
    forall x | x in r && x != TOP ensures Linked(r, x) {
      ParentStays(h, r, sh, c, x);
    }
  }

  lemma RemovedOwned(h: Contexts, r: Contexts, sh: Shape, c: Id)
    requires Valid(h, sh) && c in h && c != TOP && Removed(h, r, sh, c)
    ensures AllOwned(r)
  {
    forall p, i | p in r && 0 <= i < |r[p].slots| ensures Owned(r, p, i) {
      assert Owned(h, p, i);
      if r[p].slots[i].Some? {
        var x := h[p].slots[i].value;
        assert Linked(h, c) && Linked(h, x);
        assert x != c;
        assert Under(h, sh, x, c) == Under(h, sh, p, c);
      }
    }
  }

  /** No slot is left that points to a freed context. */
  lemma RemovedValid(h: Contexts, r: Contexts, sh: Shape, c: Id)
    requires Valid(h, sh) && c in h && c != TOP && Removed(h, r, sh, c)
    ensures Valid(r, sh)
  {
    RemovedLinked(h, r, sh, c);
    RemovedOwned(h, r, sh, c);
    assert !Under(h, sh, TOP, c);
    assert Rooted(r) by {
      assert h[h[c].parent.value].Valid();
    }
    forall x | x in r && x != TOP && r[x].parent.Some? && r[x].parent.value in r
      ensures sh.level[x] == sh.level[r[x].parent.value] + 1
    {
      assert Linked(h, x);
    }
  }

  /** Ancestors do not change for contexts whose parent links do not. */
  lemma {:induction false} UnderSame(h: Contexts, r: Contexts, sh: Shape, x: Id, k: Id)
    requires Valid(h, sh) && Valid(r, sh) && r.Keys <= h.Keys && x in r
    requires forall y | y in r :: r[y].parent == h[y].parent
    ensures Under(r, sh, x, k) <==> Under(h, sh, x, k)
    decreases sh.level[x]
  {
    if x != k && x != TOP {
      assert Linked(r, x);
      UnderSame(h, r, sh, r[x].parent.value, k);
    }
  }

  /** Of the contexts of `h`, `r` has those that are not below one of the first `n` slots of `c`. */
  ghost predicate FreedKeys(h: Contexts, r: Contexts, sh: Shape, c: Id, n: nat)
    requires Valid(h, sh) && c in h && n <= |h[c].slots|
  {
    forall x :: x in r <==> x in h && !UnderSlots(h, sh, c, n, x)
  }

  /** Nothing has changed but the list of `c`, where the first `n` slots are empty now. */
  ghost predicate FreedSlots(h: Contexts, r: Contexts, c: Id, n: nat) {
    && c in h && c in r && r.Keys <= h.Keys
    && (forall x | x in r && x != c :: r[x] == h[x])
    && r[c] == h[c].(slots := r[c].slots, freeIdx := r[c].freeIdx)
    && |r[c].slots| == |h[c].slots|
    && (forall j | 0 <= j < |r[c].slots| :: r[c].slots[j] == if j < n then None else h[c].slots[j])
  }

  /** The children of `c` in the first `n` slots have been freed. */
  ghost predicate PartlyFreed(h: Contexts, r: Contexts, sh: Shape, c: Id, n: nat)
    requires Valid(h, sh) && c in h && n <= |h[c].slots|
  {
    FreedKeys(h, r, sh, c, n) && FreedSlots(h, r, c, n)
  }

  lemma FreedKeysStep(h: Contexts, r: Contexts, sh: Shape, c: Id, n: nat, x: Id)
    requires Valid(h, sh) && Valid(r, sh) && c in h && n < |h[c].slots| && FreedKeys(h, r, sh, c, n) && FreedSlots(h, r, c, n)
    requires h[c].slots[n].Some?
    ensures (x in r && !Under(r, sh, x, h[c].slots[n].value)) <==> x in h && !UnderSlots(h, sh, c, n + 1, x)
  {
    if x in h {
      UnderSlotsStep(h, sh, c, n + 1, x);
    }
    if x in r {
      UnderSame(h, r, sh, x, h[c].slots[n].value);
    }
  }

  lemma PartlyFreedStep(h: Contexts, r: Contexts, r2: Contexts, sh: Shape, c: Id, n: nat)
    requires Valid(h, sh) && Valid(r, sh) && c in h && n < |h[c].slots| && PartlyFreed(h, r, sh, c, n)
    requires h[c].slots[n].Some? && h[c].slots[n].value in r && h[c].slots[n].value != TOP
    requires Removed(r, r2, sh, h[c].slots[n].value)
    ensures PartlyFreed(h, r2, sh, c, n + 1)
  {
    var k := h[c].slots[n].value;
    assert r2.Keys == r.Keys - Subtree(r, sh, k);
    assert FreedKeys(h, r2, sh, c, n + 1) by {
      forall x ensures x in r2 <==> x in h && !UnderSlots(h, sh, c, n + 1, x) {
        FreedKeysStep(h, r, sh, c, n, x);
      }
    }
    FreedSlotsStep(h, r, r2, sh, c, n);
  }

  lemma FreedSlotsStep(h: Contexts, r: Contexts, r2: Contexts, sh: Shape, c: Id, n: nat)
    requires Valid(r, sh) && FreedSlots(h, r, c, n) && n < |h[c].slots|
    requires h[c].slots[n].Some? && h[c].slots[n].value in r && h[c].slots[n].value != TOP
    requires Removed(r, r2, sh, h[c].slots[n].value)
    ensures FreedSlots(h, r2, c, n + 1)
  {
    hide Under;
    assert Linked(r, h[c].slots[n].value);
    assert Owned(r, c, n);
    hide Valid;
  }

  lemma PartlyFreedSkip(h: Contexts, r: Contexts, sh: Shape, c: Id, n: nat)
    requires Valid(h, sh) && c in h && n < |h[c].slots| && PartlyFreed(h, r, sh, c, n) && h[c].slots[n].None?
    ensures PartlyFreed(h, r, sh, c, n + 1)
  {
    assert FreedKeys(h, r, sh, c, n + 1) by {
      forall x ensures x in r <==> x in h && !UnderSlots(h, sh, c, n + 1, x) {
        if x in h {
          UnderSlotsStep(h, sh, c, n + 1, x);
        }
      }
    }
    assert FreedSlots(h, r, c, n + 1);
  }

  lemma UnderAllSlots(h: Contexts, sh: Shape, c: Id, x: Id)
    requires Valid(h, sh) && c in h && x in h
    ensures UnderSlots(h, sh, c, |h[c].slots|, x) <==> x != c && Under(h, sh, x, c)
  {
    if x != c && Under(h, sh, x, c) {
      var i := UnderChild(h, sh, x, c);
    }
    if UnderSlots(h, sh, c, |h[c].slots|, x) {
      var i :| 0 <= i < |h[c].slots| && h[c].slots[i].Some? && Under(h, sh, x, h[c].slots[i].value);
      ChildLevel(h, sh, c, i);
      UnderTrans(h, sh, x, h[c].slots[i].value, c);
      UnderLevel(h, sh, x, h[c].slots[i].value);
    }
  }

  /** With all children gone, unhooking `c` from its parent completes the removal. */
  lemma FreedWhole(h: Contexts, r: Contexts, sh: Shape, c: Id)
    requires Valid(h, sh) && Valid(r, sh) && c in h && c != TOP && PartlyFreed(h, r, sh, c, |h[c].slots|)
    ensures Linked(r, c)
    ensures var p := r[c].parent.value;
            Removed(h, (r - {c})[p := r[p].Cleared(r[c].parentIdx, true)], sh, c)
  {
    ParentIsOutside(h, sh, c);
    assert Linked(r, c);
    hide Valid;
    hide UnderSlots;
    hide Under;
    hide FreedKeys;
    FreedWholeKeys(h, r, sh, c);
    var p := h[c].parent.value;
    var f := (r - {c})[p := r[p].Cleared(r[c].parentIdx, true)];
    assert f.Keys == h.Keys - Subtree(h, sh, c);
  }

  lemma ParentIsOutside(h: Contexts, sh: Shape, c: Id)
    requires Valid(h, sh) && c in h && c != TOP
    ensures Linked(h, c) && h[c].parent.value != c && !Under(h, sh, h[c].parent.value, c)
  {
    assert Linked(h, c);
    var p := h[c].parent.value;
    if Under(h, sh, p, c) {
      UnderLevel(h, sh, p, c);
    }
  }

  lemma FreedWholeKeys(h: Contexts, r: Contexts, sh: Shape, c: Id)
    requires Valid(h, sh) && c in h && c != TOP && PartlyFreed(h, r, sh, c, |h[c].slots|)
    ensures r.Keys - {c} == h.Keys - Subtree(h, sh, c)
  {
    assert Under(h, sh, c, c);
    hide Valid;
    hide UnderSlots;
    hide Under;
    forall x
      ensures x in r.Keys - {c} <==> x in h && !Under(h, sh, x, c)
    {
      if x in h {
        UnderAllSlots(h, sh, c, x);
      }
    }
  }

  // ----- Listings in changed heaps -----

  /** The subtree of `k` has the same lists in `r` as in `h`. */
  ghost predicate SameBelow(h: Contexts, r: Contexts, sh: Shape, k: Id)
    requires Valid(h, sh)
  {
    forall y | y in h && Under(h, sh, y, k) :: y in r && r[y].slots == h[y].slots
  }

  lemma SameBelowChild(h: Contexts, r: Contexts, sh: Shape, c: Id, i: nat)
    requires Valid(h, sh) && c in h && SameBelow(h, r, sh, c) && i < |h[c].slots| && h[c].slots[i].Some?
    ensures SameBelow(h, r, sh, h[c].slots[i].value)
  {
    var k := h[c].slots[i].value;
    ChildLevel(h, sh, c, i);
    forall y | y in h && Under(h, sh, y, k) ensures y in r && r[y].slots == h[y].slots {
      UnderTrans(h, sh, y, k, c);
    }
  }

  lemma {:induction false} OrderSame(h: Contexts, r: Contexts, sh: Shape, c: Id, pre: bool)
    requires Valid(h, sh) && Valid(r, sh) && c in h && SameBelow(h, r, sh, c)
    ensures c in r && Order(r, sh, c, pre) == Order(h, sh, c, pre)
    decreases sh.bound - sh.level[c], 1, 0
  {
    assert Under(h, sh, c, c);
    SlotsSame(h, r, sh, c, pre, |h[c].slots|);
  }

  lemma {:induction false} SlotsSame(h: Contexts, r: Contexts, sh: Shape, c: Id, pre: bool, n: nat)
    requires Valid(h, sh) && Valid(r, sh) && c in h && c in r && r[c].slots == h[c].slots && SameBelow(h, r, sh, c)
    requires n <= |h[c].slots|
    ensures SlotsOrder(r, sh, c, pre, n) == SlotsOrder(h, sh, c, pre, n)
    decreases sh.bound - sh.level[c], 0, n
  {
    hide Valid;
    hide SlotOrder;
    hide SameBelow;
    if n > 0 {
      SlotsSame(h, r, sh, c, pre, n - 1);
      SlotsStep(h, sh, c, pre, n - 1);
      SlotsStep(r, sh, c, pre, n - 1);
      SlotSame(h, r, sh, c, pre, n - 1);
    }
  }

  lemma {:induction false} SlotSame(h: Contexts, r: Contexts, sh: Shape, c: Id, pre: bool, n: nat)
    requires Valid(h, sh) && Valid(r, sh) && c in h && c in r && r[c].slots == h[c].slots && SameBelow(h, r, sh, c)
    requires n < |h[c].slots|
    ensures SlotOrder(r, sh, c, pre, n) == SlotOrder(h, sh, c, pre, n)
    decreases sh.bound - sh.level[c], 0, n
  {
    if h[c].slots[n].Some? {
      ChildLevel(h, sh, c, n);
      SameBelowChild(h, r, sh, c, n);
      OrderSame(h, r, sh, h[c].slots[n].value, pre);
    }
  }

  lemma PartlyFreedBelow(h: Contexts, r: Contexts, sh: Shape, c: Id, n: nat)
    requires Valid(h, sh) && Valid(r, sh) && c in h && n < |h[c].slots| && PartlyFreed(h, r, sh, c, n) && h[c].slots[n].Some?
    ensures h[c].slots[n].value in r && h[c].slots[n].value != TOP && r[c].slots[n] == h[c].slots[n]
    ensures Order(r, sh, h[c].slots[n].value, false) == SlotOrder(h, sh, c, false, n)
  {
    var k := h[c].slots[n].value;
    ChildLevel(h, sh, c, n);
    assert SameBelow(h, r, sh, k) by {
      forall y | y in h && Under(h, sh, y, k) ensures y in r && r[y].slots == h[y].slots {
        if UnderSlots(h, sh, c, n, y) {
          SlotsElements(h, sh, c, false, n, y);
          SlotsDisjoint(h, sh, c, false, n, y);
        }
        if y == c {
          UnderLevel(h, sh, y, k);
        }
      }
    }
    assert Under(h, sh, k, k);
    OrderSame(h, r, sh, k, false);
  }

  // ----- Callbacks -----

  /** A callback has run, an allocation or a context has been given back. */
  datatype Event = Ran(id: Id) | ReleasedAlloc(a: AllocList.AllocId) | Released(id: Id)

  ghost function CallbackOf(h: Contexts, x: Id): Callback {
    if x in h then h[x].callback else NoCallback
  }

  /** The callbacks that run when `ids` are visited in order: those that are set, up to the first that throws. */
  ghost function Running(h: Contexts, ids: seq<Id>): seq<Event> {
    if ids == [] then []
    else
      match CallbackOf(h, ids[0])
      case NoCallback => Running(h, ids[1..])
      case Callback(fails) => [Ran(ids[0])] + (if fails then [] else Running(h, ids[1..]))
  }

  ghost predicate Throws(h: Contexts, ids: seq<Id>) {
    ids != [] && (CallbackOf(h, ids[0]) == Callback(true) || Throws(h, ids[1..]))
  }

  /** Callbacks run up to and including the first that throws, and none after it. */
  lemma {:induction false} RunningStops(h: Contexts, ids: seq<Id>, k: nat)
    requires k < |ids| && CallbackOf(h, ids[k]) == Callback(true)
    requires forall i | 0 <= i < k :: CallbackOf(h, ids[i]) != Callback(true)
    ensures Throws(h, ids) && Running(h, ids) == Running(h, ids[..k]) + [Ran(ids[k])]
    decreases k
  {
    if k > 0 {
      assert ids[..k][0] == ids[0] && ids[..k][1..] == ids[1..][..k - 1];
      RunningStops(h, ids[1..], k - 1);
    }
  }

  lemma {:induction false} RunningAppend(h: Contexts, a: seq<Id>, b: seq<Id>)
    ensures Running(h, a + b) == Running(h, a) + (if Throws(h, a) then [] else Running(h, b))
    ensures Throws(h, a + b) <==> Throws(h, a) || Throws(h, b)
  {
    if a == [] {
      assert a + b == b;
    } else {
      assert (a + b)[1..] == a[1..] + b;
      RunningAppend(h, a[1..], b);
    }
  }

  lemma {:induction false} RunningSame(h: Contexts, r: Contexts, ids: seq<Id>)
    requires forall x | x in ids :: CallbackOf(r, x) == CallbackOf(h, x)
    ensures Running(r, ids) == Running(h, ids) && (Throws(r, ids) <==> Throws(h, ids))
  {
    if ids != [] {
      assert ids[0] in ids;
      RunningSame(h, r, ids[1..]);
    }
  }

  /** `r` differs from `h` in callbacks only. */
  ghost predicate SameButCallbacks(h: Contexts, r: Contexts) {
    r.Keys == h.Keys && forall x | x in h :: r[x] == h[x].(callback := r[x].callback)
  }

  /** `r` has the same tree as `h`; callbacks and allocations may differ. */
  ghost predicate SameTree(h: Contexts, r: Contexts) {
    r.Keys == h.Keys && forall x | x in h :: r[x] == h[x].(callback := r[x].callback, allocs := r[x].allocs)
  }

  lemma SameTreeKeepsValid(h: Contexts, r: Contexts, sh: Shape)
    requires Valid(h, sh) && SameTree(h, r)
    ensures Valid(r, sh)
  {
    forall x | x in r && x != TOP ensures Linked(r, x) {
      assert Linked(h, x);
    }
    forall p, i | p in r && 0 <= i < |r[p].slots| ensures Owned(r, p, i) {
      assert Owned(h, p, i);
    }
  }

  lemma CallbacksKeepValid(h: Contexts, r: Contexts, sh: Shape)
    requires Valid(h, sh) && SameButCallbacks(h, r)
    ensures Valid(r, sh)
  {
    SameTreeKeepsValid(h, r, sh);
  }

  /** Of the callbacks, exactly those that ran and returned have been cleared. */
  ghost predicate CallbacksAfter(h: Contexts, r: Contexts, events: seq<Event>) {
    && SameButCallbacks(h, r)
    && forall x | x in h ::
         r[x].callback == if Ran(x) in events && h[x].callback == Callback(false) then NoCallback else h[x].callback
  }

  lemma CallbacksAfterMore(h: Contexts, r: Contexts, r2: Contexts, a: seq<Event>, b: seq<Event>)
    requires CallbacksAfter(h, r, a) && CallbacksAfter(r, r2, b)
    ensures CallbacksAfter(h, r2, a + b)
  {
  }

  lemma CallbacksKeepOrder(h: Contexts, r: Contexts, sh: Shape, c: Id, pre: bool)
    requires Valid(h, sh) && SameButCallbacks(h, r) && c in h
    ensures Valid(r, sh) && Order(r, sh, c, pre) == Order(h, sh, c, pre)
  {
    CallbacksKeepValid(h, r, sh);
    OrderSame(h, r, sh, c, pre);
  }

  /** Callbacks of `c` and of the subtrees in its first `n` slots may have been cleared. */
  ghost predicate Cleared(h: Contexts, r: Contexts, sh: Shape, c: Id, n: nat)
    requires Valid(h, sh) && c in h && n <= |h[c].slots|
  {
    SameButCallbacks(h, r) && forall x | x in h && x != c && !UnderSlots(h, sh, c, n, x) :: r[x] == h[x]
  }

  /** Callbacks below slot `n` are still as they were. */
  lemma ClearedRunning(h: Contexts, r: Contexts, sh: Shape, c: Id, n: nat)
    requires Valid(h, sh) && c in h && n < |h[c].slots| && Cleared(h, r, sh, c, n) && h[c].slots[n].Some?
    ensures h[c].slots[n].value in r && Valid(r, sh)
    ensures var ids := SlotOrder(h, sh, c, true, n);
            && Order(r, sh, h[c].slots[n].value, true) == ids
            && Running(r, ids) == Running(h, ids) && (Throws(r, ids) <==> Throws(h, ids))
  {
    var k := h[c].slots[n].value;
    ChildLevel(h, sh, c, n);
    CallbacksKeepOrder(h, r, sh, k, true);
    var ids := Order(h, sh, k, true);
    forall x | x in ids ensures CallbackOf(r, x) == CallbackOf(h, x) {
      OrderElements(h, sh, k, true, x);
      if x == c {
        UnderLevel(h, sh, x, k);
      }
      if UnderSlots(h, sh, c, n, x) {
        SlotsElements(h, sh, c, true, n, x);
        SlotsDisjoint(h, sh, c, true, n, x);
      }
    }
    RunningSame(h, r, ids);
  }

  lemma ClearedStep(h: Contexts, r: Contexts, r2: Contexts, sh: Shape, c: Id, n: nat)
    requires Valid(h, sh) && c in h && n < |h[c].slots| && Cleared(h, r, sh, c, n) && h[c].slots[n].Some?
    requires Valid(r, sh) && SameButCallbacks(r, r2)
    requires forall x | x in r && !Under(r, sh, x, h[c].slots[n].value) :: r2[x] == r[x]
    ensures Cleared(h, r2, sh, c, n + 1)
  {
    forall x | x in h && x != c && !UnderSlots(h, sh, c, n + 1, x) ensures r2[x] == h[x] {
      UnderSlotsStep(h, sh, c, n + 1, x);
      UnderSame(h, r, sh, x, h[c].slots[n].value);
    }
  }

  lemma ClearedSkip(h: Contexts, r: Contexts, sh: Shape, c: Id, n: nat)
    requires Valid(h, sh) && c in h && n < |h[c].slots| && Cleared(h, r, sh, c, n) && h[c].slots[n].None?
    ensures Cleared(h, r, sh, c, n + 1)
  {
    forall x | x in h && x != c && !UnderSlots(h, sh, c, n + 1, x) ensures r[x] == h[x] {
      UnderSlotsStep(h, sh, c, n + 1, x);
    }
  }

  /** Only the subtree of `c` may differ. */
  lemma ClearedOutside(h: Contexts, r: Contexts, sh: Shape, c: Id, n: nat)
    requires Valid(h, sh) && c in h && n <= |h[c].slots| && Cleared(h, r, sh, c, n)
    ensures forall x | x in h && !Under(h, sh, x, c) :: r[x] == h[x]
  {
    forall x | x in h && !Under(h, sh, x, c) ensures r[x] == h[x] {
      UnderAllSlots(h, sh, c, x);
    }
  }

  // ----- The code -----

  /** The allocations of a list, slot by slot. */
  ghost function AllocReleases(list: seq<Option<AllocList.AllocId>>): seq<Event> {
    if list == [] then []
    else
      var n := |list| - 1;
      AllocReleases(list[..n]) + if list[n].Some? then [ReleasedAlloc(list[n].value)] else []
  }

  /** What releasing one context gives back: its allocations, then the context unless it is the top one. */
  ghost function ReleaseOf(h: Contexts, x: Id): seq<Event> {
    (if x in h then AllocReleases(h[x].allocs.list) else []) + if x == TOP then [] else [Released(x)]
  }

  ghost function Releases(h: Contexts, ids: seq<Id>): seq<Event> {
    if ids == [] then [] else Releases(h, ids[..|ids| - 1]) + ReleaseOf(h, ids[|ids| - 1])
  }

  lemma {:induction false} ReleasesAppend(h: Contexts, a: seq<Id>, b: seq<Id>)
    ensures Releases(h, a + b) == Releases(h, a) + Releases(h, b)
  {
    if b == [] {
      assert a + b == a;
    } else {
      var n := |b| - 1;
      assert (a + b)[..|a + b| - 1] == a + b[..n];
      ReleasesAppend(h, a, b[..n]);
    }
  }

  lemma {:induction false} ReleasesSame(h: Contexts, r: Contexts, ids: seq<Id>)
    requires forall x | x in ids :: x in h && x in r && r[x].allocs == h[x].allocs
    ensures Releases(r, ids) == Releases(h, ids)
  {
    if ids != [] {
      assert ids[|ids| - 1] in ids;
      ReleasesSame(h, r, ids[..|ids| - 1]);
    }
  }

  lemma PartlyFreedReleases(h: Contexts, r: Contexts, sh: Shape, c: Id, n: nat)
    requires Valid(h, sh) && Valid(r, sh) && c in h && n < |h[c].slots| && PartlyFreed(h, r, sh, c, n)
    ensures Releases(r, SlotOrder(h, sh, c, false, n)) == Releases(h, SlotOrder(h, sh, c, false, n))
  {
    var ids := SlotOrder(h, sh, c, false, n);
    forall x | x in ids ensures x in h && x in r && r[x].allocs == h[x].allocs {
      ChildLevel(h, sh, c, n);
      OrderElements(h, sh, h[c].slots[n].value, false, x);
      if UnderSlots(h, sh, c, n, x) {
        SlotsElements(h, sh, c, false, n, x);
        SlotsDisjoint(h, sh, c, false, n, x);
      }
    }
    ReleasesSame(h, r, ids);
  }

  lemma {:induction false} UnderTop(h: Contexts, sh: Shape, x: Id)
    requires Valid(h, sh) && x in h
    ensures Under(h, sh, x, TOP)
    decreases sh.level[x]
  {
    if x != TOP {
      assert Linked(h, x);
      UnderTop(h, sh, h[x].parent.value);
    }
  }

  /** The first `n` children of `c` have been freed, with `events` logged. */
  ghost predicate Freeing(h: Contexts, r: Contexts, sh: Shape, c: Id, n: nat, events: seq<Event>) {
    && Valid(h, sh) && Valid(r, sh) && c in h && n <= |h[c].slots| && PartlyFreed(h, r, sh, c, n)
    && events == Releases(h, SlotsOrder(h, sh, c, false, n))
  }

  lemma FreeingFacts(h: Contexts, r: Contexts, sh: Shape, c: Id, n: nat, events: seq<Event>)
    requires Freeing(h, r, sh, c, n, events)
    ensures Valid(h, sh) && Valid(r, sh) && c in h && c in r && |r[c].slots| == |h[c].slots|
    ensures r[c].allocs == h[c].allocs && (c != TOP ==> Linked(r, c))
    ensures c in sh.level && sh.level[c] <= sh.bound && forall x | x in r :: x in sh.level && sh.level[x] <= sh.bound
  {
  }

  lemma FreeingStart(h: Contexts, sh: Shape, c: Id)
    requires Valid(h, sh) && c in h
    ensures Freeing(h, h, sh, c, 0, [])
  {
  }

  lemma FreeingStep(h: Contexts, r: Contexts, r2: Contexts, sh: Shape, c: Id, n: nat, events: seq<Event>)
    requires Freeing(h, r, sh, c, n, events) && n < |h[c].slots| && r[c].slots[n].Some?
    requires r[c].slots[n].value in r && r[c].slots[n].value != TOP
    requires Valid(r2, sh) && Removed(r, r2, sh, r[c].slots[n].value)
    ensures Freeing(h, r2, sh, c, n + 1, events + Releases(r, Order(r, sh, r[c].slots[n].value, false)))
    ensures |r2[c].slots| == |h[c].slots|
  {
    SlotsStep(h, sh, c, false, n);
    ReleasesAppend(h, SlotsOrder(h, sh, c, false, n), SlotOrder(h, sh, c, false, n));
    PartlyFreedBelow(h, r, sh, c, n);
    PartlyFreedReleases(h, r, sh, c, n);
    PartlyFreedStep(h, r, r2, sh, c, n);
  }

  lemma FreeingSkip(h: Contexts, r: Contexts, sh: Shape, c: Id, n: nat, events: seq<Event>)
    requires Freeing(h, r, sh, c, n, events) && n < |h[c].slots| && r[c].slots[n].None?
    ensures Freeing(h, r, sh, c, n + 1, events)
  {
    SlotsStep(h, sh, c, false, n);
    var before := SlotsOrder(h, sh, c, false, n);
    assert SlotOrder(h, sh, c, false, n) == [];
    assert before + [] == before;
    PartlyFreedSkip(h, r, sh, c, n);
  }

  /** The end of memContextFreeRecurse(): take `c` out of its parent's list, or reset the top context. */
  function Unhook(r: Contexts, c: Id): Contexts
    requires c in r && (c != TOP ==> r[c].parent.Some? && r[c].parent.value in r)
    requires c != TOP ==> r[r[c].parent.value].SlotOf(r[c].parentIdx) < |r[r[c].parent.value].slots|
  {
    if c == TOP then map[TOP := r[TOP].(slots := [], freeIdx := 0, allocs := AllocList.EMPTY)]
    else (r - {c})[r[c].parent.value := r[r[c].parent.value].Cleared(r[c].parentIdx, true)]
  }

  lemma ReleasesOne(h: Contexts, c: Id)
    ensures Releases(h, [c]) == ReleaseOf(h, c)
  {
    assert [c][..0] == [] && Releases(h, []) == [];
  }

  lemma FreeingEnd(h: Contexts, r: Contexts, sh: Shape, c: Id, events: seq<Event>)
    requires Valid(h, sh) && c in h && Freeing(h, r, sh, c, |h[c].slots|, events)
    ensures c in r && r[c].allocs == h[c].allocs && (c != TOP ==> Linked(r, c))
    ensures events + ReleaseOf(h, c) == Releases(h, Order(h, sh, c, false))
  {
    hide Freeing;
    hide Valid;
    hide Linked;
    hide SlotsOrder;
    FreeingFacts(h, r, sh, c, |h[c].slots|, events);
    hide Releases;
    hide ReleaseOf;
    EventsSoFar(h, r, sh, c, events);
    var below := SlotsOrder(h, sh, c, false, |h[c].slots|);
    assert Order(h, sh, c, false) == below + [c];
    ReleasesAppend(h, below, [c]);
    ReleasesOne(h, c);
  }

  lemma EventsSoFar(h: Contexts, r: Contexts, sh: Shape, c: Id, events: seq<Event>)
    requires Valid(h, sh) && c in h && Freeing(h, r, sh, c, |h[c].slots|, events)
    ensures events == Releases(h, SlotsOrder(h, sh, c, false, |h[c].slots|))
  {
  }

  /** `r` is what freeing `c` leaves of `h`. */
  ghost predicate Freed(h: Contexts, r: Contexts, sh: Shape, c: Id)
    requires Valid(h, sh) && c in h
  {
    if c == TOP then r == map[TOP := h[TOP].(slots := [], freeIdx := 0, allocs := AllocList.EMPTY)] else Removed(h, r, sh, c)
  }

  lemma FreedValid(h: Contexts, r: Contexts, f: Contexts, sh: Shape, c: Id, events: seq<Event>)
    requires Valid(h, sh) && Valid(r, sh) && c in h && Freeing(h, r, sh, c, |h[c].slots|, events)
    requires c in r && (c != TOP ==> Linked(r, c))
    requires f == Unhook(r, c)
    ensures Valid(f, sh) && Freed(h, f, sh, c)
  {
    if c != TOP {
      FreedWhole(h, r, sh, c);
      RemovedValid(h, f, sh, c);
    }
  }

  ghost function CallbackEvent(h: Contexts, c: Id): seq<Event> {
    if CallbackOf(h, c).Callback? then [Ran(c)] else []
  }

  /** The callbacks below `c` have run, with `events` logged, and those that returned are cleared; outside the subtree
      nothing has changed. */
  ghost predicate Called(h: Contexts, r: Contexts, sh: Shape, c: Id, events: seq<Event>)
    requires Valid(h, sh) && c in h
  {
    && CallbacksAfter(h, r, events)
    && (forall x | x in h && !Under(h, sh, x, c) :: r[x] == h[x])
    && events == Running(h, Order(h, sh, c, true))
  }

  /** The callbacks of `c` and of the first `n` children have run without a throw. */
  ghost predicate Calling(h: Contexts, r: Contexts, sh: Shape, c: Id, n: nat, events: seq<Event>) {
    && Valid(h, sh) && c in h && n <= |h[c].slots| && Cleared(h, r, sh, c, n)
    && CallbacksAfter(h, r, events)
    && events == Running(h, [c] + SlotsOrder(h, sh, c, true, n))
    && !Throws(h, [c] + SlotsOrder(h, sh, c, true, n))
  }

  lemma RunningOne(h: Contexts, c: Id)
    ensures Running(h, [c]) == CallbackEvent(h, c) && (Throws(h, [c]) <==> CallbackOf(h, c) == Callback(true))
  {
  }

  lemma CalledRoot(h: Contexts, sh: Shape, c: Id)
    requires Valid(h, sh) && c in h && h[c].callback == Callback(true)
    ensures Called(h, h, sh, c, [Ran(c)]) && Throws(h, Order(h, sh, c, true))
  {
    var below := SlotsOrder(h, sh, c, true, |h[c].slots|);
    assert Order(h, sh, c, true) == [c] + below;
    RunningOne(h, c);
    RunningAppend(h, [c], below);
  }

  lemma CallingStart(h: Contexts, r: Contexts, sh: Shape, c: Id)
    requires Valid(h, sh) && c in h && h[c].callback != Callback(true)
    requires r == h[c := h[c].(callback := NoCallback)]
    ensures Calling(h, r, sh, c, 0, CallbackEvent(h, c))
  {
    RunningOne(h, c);
    assert [c] + SlotsOrder(h, sh, c, true, 0) == [c];
  }

  lemma CallingStep(h: Contexts, r: Contexts, r2: Contexts, sh: Shape, c: Id, n: nat, events: seq<Event>)
    requires Calling(h, r, sh, c, n, events) && n < |h[c].slots| && h[c].slots[n].Some? && r[c].slots == h[c].slots
    requires Valid(r, sh) && h[c].slots[n].value in r
    requires Called(r, r2, sh, h[c].slots[n].value, Running(r, Order(r, sh, h[c].slots[n].value, true)))
    ensures var ids := Order(r, sh, h[c].slots[n].value, true);
            if Throws(r, ids) then Called(h, r2, sh, c, events + Running(r, ids)) && Throws(h, Order(h, sh, c, true))
            else Calling(h, r2, sh, c, n + 1, events + Running(r, ids))
  {
    ClearedRunning(h, r, sh, c, n);
    ClearedStep(h, r, r2, sh, c, n);
    CallingEvents(h, sh, c, n, events);
    ClearedOutside(h, r2, sh, c, n + 1);
    CallbacksAfterMore(h, r, r2, events, Running(r, Order(r, sh, h[c].slots[n].value, true)));
  }

  lemma CallingEvents(h: Contexts, sh: Shape, c: Id, n: nat, events: seq<Event>)
    requires Valid(h, sh) && c in h && n < |h[c].slots|
    requires events == Running(h, [c] + SlotsOrder(h, sh, c, true, n)) && !Throws(h, [c] + SlotsOrder(h, sh, c, true, n))
    ensures var ids := SlotOrder(h, sh, c, true, n);
            var all := if Throws(h, ids) then Order(h, sh, c, true) else [c] + SlotsOrder(h, sh, c, true, n + 1);
            events + Running(h, ids) == Running(h, all) && (Throws(h, ids) <==> Throws(h, all))
  {
    hide Valid;
    var ids := SlotOrder(h, sh, c, true, n);
    var before := [c] + SlotsOrder(h, sh, c, true, n);
    var rest := OrderSplit(h, sh, c, n);
    RunningThrough(h, before, ids, rest);
  }

  lemma RunningThrough(h: Contexts, before: seq<Id>, ids: seq<Id>, rest: seq<Id>)
    requires !Throws(h, before)
    ensures Running(h, before) + Running(h, ids) == Running(h, before + ids)
    ensures Throws(h, before + ids) <==> Throws(h, ids)
    ensures Throws(h, ids) ==>
              Running(h, before) + Running(h, ids) == Running(h, before + ids + rest) && Throws(h, before + ids + rest)
  {
    RunningAppend(h, before, ids);
    RunningAppend(h, before + ids, rest);
  }

  /** The listing up to slot `n`, of slot `n`, and the rest. */
  lemma OrderSplit(h: Contexts, sh: Shape, c: Id, n: nat) returns (rest: seq<Id>)
    requires Valid(h, sh) && c in h && n < |h[c].slots|
    ensures var before := [c] + SlotsOrder(h, sh, c, true, n);
            var ids := SlotOrder(h, sh, c, true, n);
            && [c] + SlotsOrder(h, sh, c, true, n + 1) == before + ids
            && Order(h, sh, c, true) == before + ids + rest
  {
    hide Valid;
    hide SlotsOrder;
    hide SlotOrder;
    SlotsStep(h, sh, c, true, n);
    rest := SlotsRest(h, sh, c, n + 1);
    assert Order(h, sh, c, true) == [c] + SlotsOrder(h, sh, c, true, |h[c].slots|);
  }

  /** The listing of the slots from `n` on. */
  lemma {:induction false} SlotsRest(h: Contexts, sh: Shape, c: Id, n: nat) returns (rest: seq<Id>)
    requires Valid(h, sh) && c in h && n <= |h[c].slots|
    ensures SlotsOrder(h, sh, c, true, |h[c].slots|) == SlotsOrder(h, sh, c, true, n) + rest
    decreases |h[c].slots| - n
  {
    hide Valid;
    hide SlotsOrder;
    hide SlotOrder;
    if n == |h[c].slots| {
      rest := [];
    } else {
      SlotsStep(h, sh, c, true, n);
      rest := SlotsRest(h, sh, c, n + 1);
      rest := SlotOrder(h, sh, c, true, n) + rest;
    }
  }

  lemma CallingSkip(h: Contexts, r: Contexts, sh: Shape, c: Id, n: nat, events: seq<Event>)
    requires Calling(h, r, sh, c, n, events) && n < |h[c].slots| && h[c].slots[n].None?
    ensures Calling(h, r, sh, c, n + 1, events)
  {
    SlotsStep(h, sh, c, true, n);
    var before := SlotsOrder(h, sh, c, true, n);
    assert SlotOrder(h, sh, c, true, n) == [];
    assert before + [] == before;
    ClearedSkip(h, r, sh, c, n);
  }

  lemma CallingEnd(h: Contexts, r: Contexts, sh: Shape, c: Id, events: seq<Event>)
    requires Valid(h, sh) && c in h && Calling(h, r, sh, c, |h[c].slots|, events)
    ensures Called(h, r, sh, c, events) && !Throws(h, Order(h, sh, c, true))
  {
    var below := SlotsOrder(h, sh, c, true, |h[c].slots|);
    assert Order(h, sh, c, true) == [c] + below;
    ClearedOutside(h, r, sh, c, |h[c].slots|);
  }

  // ----- Allocations -----

  /** No context has the allocation. */
  ghost predicate NotLive(h: Contexts, a: AllocList.AllocId) {
    forall x | x in h :: a !in h[x].allocs.headers
  }

  /** Allocation lists are in order, and no allocation belongs to two contexts. */
  ghost predicate AllocsApart(h: Contexts) {
    && (forall x | x in h :: h[x].allocs.Valid())
    && (forall x, y, a | x in h && y in h && a in h[x].allocs.headers && a in h[y].allocs.headers :: x == y)
  }

  ghost predicate Whole(h: Contexts, sh: Shape) {
    Valid(h, sh) && AllocsApart(h)
  }

  lemma StillApart(h: Contexts, r: Contexts)
    requires AllocsApart(h)
    requires forall x | x in r :: r[x].allocs == AllocList.EMPTY || (x in h && r[x].allocs == h[x].allocs)
    ensures AllocsApart(r)
  {
  }

  lemma WholeFacts(h: Contexts, sh: Shape, x: Id)
    requires Whole(h, sh) && x in h
    ensures h[x].Valid() && (x != TOP ==> Linked(h, x))
  {
  }

  /** The source demands a live allocation of the context to resize or free; malloc() returns no live address. */
  ghost predicate LegalIn(h: Contexts, c: Id, op: AllocList.Op) {
    && c in h && AllocList.Legal(h[c].allocs, op)
    && match op
       case OpNew(a, _) => NotLive(h, a)
       case OpResize(a, b, _) => b == a || NotLive(h, b)
       case OpFree(_) => true
  }

  ghost function AfterAlloc(h: Contexts, c: Id, op: AllocList.Op): Contexts
    requires c in h && h[c].allocs.Valid() && AllocList.Legal(h[c].allocs, op)
  {
    h[c := h[c].(allocs := AllocList.Apply(h[c].allocs, op))]
  }

  lemma AllocKeepsWhole(h: Contexts, sh: Shape, c: Id, op: AllocList.Op)
    requires Whole(h, sh) && LegalIn(h, c, op)
    ensures Whole(AfterAlloc(h, c, op), sh)
  {
    AllocKeepsApart(h, c, op);
    AfterAllocSameTree(h, c, op);
    hide AllocsApart;
    hide AfterAlloc;
    hide SameTree;
    hide LegalIn;
    SameTreeKeepsValid(h, AfterAlloc(h, c, op), sh);
    hide Valid;
  }

  lemma LegalHere(h: Contexts, sh: Shape, c: Id, op: AllocList.Op)
    requires Whole(h, sh) && LegalIn(h, c, op)
    ensures c in h && h[c].allocs.Valid() && AllocList.Legal(h[c].allocs, op)
  {
  }

  lemma AfterAllocSameTree(h: Contexts, c: Id, op: AllocList.Op)
    requires AllocsApart(h) && LegalIn(h, c, op)
    ensures SameTree(h, AfterAlloc(h, c, op))
  {
    hide AllocList.Apply;
  }

  lemma AllocKeepsApart(h: Contexts, c: Id, op: AllocList.Op)
    requires AllocsApart(h) && LegalIn(h, c, op)
    ensures AllocsApart(AfterAlloc(h, c, op))
  {
    var r := AfterAlloc(h, c, op);
    assert r[c].allocs.Valid();
    forall y, a | y in h && y != c && a in h[y].allocs.headers
      ensures a !in r[c].allocs.headers
    {
      NotTaken(h, c, op, y, a);
    }
    hide LegalIn;
    hide AllocsApart;
    hide AllocList.Apply;
    hide AllocList.Allocs.Valid;
    ApartElsewhere(h, r, c);
  }

  /** One list has changed and shares nothing with the others. */
  lemma ApartElsewhere(h: Contexts, r: Contexts, c: Id)
    requires AllocsApart(h) && c in h && r.Keys == h.Keys && r[c].allocs.Valid()
    requires forall x | x in h && x != c :: r[x].allocs == h[x].allocs
    requires forall y, a | y in h && y != c && a in h[y].allocs.headers :: a !in r[c].allocs.headers
    ensures AllocsApart(r)
  {
    hide AllocList.Allocs.Valid;
  }

  /** An allocation of another context does not become one of this context. */
  lemma NotTaken(h: Contexts, c: Id, op: AllocList.Op, y: Id, a: AllocList.AllocId)
    requires AllocsApart(h) && LegalIn(h, c, op) && y in h && y != c && a in h[y].allocs.headers
    ensures a !in AllocList.Apply(h[c].allocs, op).headers
  {
    AllocKeys(h[c].allocs, op);
    hide AllocList.Apply;
    assert a !in h[c].allocs.headers;
    assert a in AllocList.Apply(h[c].allocs, op).headers <==> a in AllocList.Apply(h[c].allocs, op).headers.Keys;
  }

  lemma NewWhole(h: Contexts, sh: Shape, cur: Id, id: Id, qty: Qty, callback: Callback)
    requires Whole(h, sh) && cur in h && id !in h && HasRoom(h[cur])
    ensures cur in sh.level && Whole(ContextTree.New(h, cur, id, qty, callback), ShapeAfterNew(sh, cur, id))
  {
    hide AllocsApart;
    NewValid(h, sh, cur, id, qty, callback);
    NewHosts(h, cur, id, qty, callback);
    hide Valid;
    hide Attached;
    hide ContextTree.New;
    StillApart(h, ContextTree.New(h, cur, id, qty, callback));
  }

  lemma MoveWhole(h: Contexts, sh: Shape, x: Id, dest: Id)
    requires Whole(h, sh) && x in h && x != TOP && dest in h && HasRoom(h[dest]) && h[x].parent != Some(dest)
    requires !Under(h, sh, dest, x)
    ensures Linked(h, x) && Whole(ContextTree.Move(h, x, dest), ShapeAfterMove(h, sh, x, dest))
  {
    hide AllocsApart;
    hide ContextTree.Move;
    hide Moved;
    MoveValid(h, sh, x, dest);
    hide Valid;
    MovedAllocs(h, ContextTree.Move(h, x, dest), x, h[x].parent.value, dest);
    StillApart(h, ContextTree.Move(h, x, dest));
  }

  lemma MovedAllocs(h: Contexts, r: Contexts, x: Id, src: Id, dest: Id)
    requires Moved(h, r, x, src, dest)
    ensures r.Keys == h.Keys && forall y | y in r :: r[y].allocs == h[y].allocs
  {
  }

  lemma AllocKeys(s: AllocList.Allocs, op: AllocList.Op)
    requires s.Valid() && AllocList.Legal(s, op)
    ensures AllocList.Apply(s, op).headers.Keys ==
            match op
            case OpNew(a, _) => s.headers.Keys + {a}
            case OpResize(a, b, _) => s.headers.Keys - {a} + {b}
            case OpFree(a) => s.headers.Keys - {a}
  {
    if op.OpNew? {
      AllocList.GrownValid(s);
    }
  }

  class MemContexts {
    var ctx: Contexts
    var log: seq<Event>
    ghost var sh: Shape

    constructor ()
      ensures Whole(ctx, sh) && ctx == TOP_ONLY && log == []
    {
      ctx := TOP_ONLY;
      log := [];
      sh := TOP_SHAPE;
    }

    /** memContextNewIndex() */
    static method MakeRoom(p: Context) returns (g: Context)
      requires p.Valid() && HasRoom(p)
      ensures g == p.Grown()
    {
      if p.qty == One {
        return p.(slots := [None]);
      }
      if p.slots == [] {
        return p.(slots := seq(MEM_CONTEXT_INITIAL_SIZE, _ => None), freeIdx := 0);
      }
      var i := p.freeIdx;
      while i < |p.slots| && p.slots[i].Some?
        invariant i <= |p.slots| && FirstFree(p.slots, i) == FirstFree(p.slots, p.freeIdx)
      {
        i := i + 1;
      }
      if i == |p.slots| {
        g := p.(slots := p.slots + seq(|p.slots|, _ => None), freeIdx := i);
      } else {
        g := p.(freeIdx := i);
      }
    }

    /** The child list part of memContextNew() */
    static method Attach(h: Contexts, cur: Id, id: Id, qty: Qty, callback: Callback) returns (r: Contexts)
      requires cur in h && h[cur].Valid() && HasRoom(h[cur])
      ensures r == ContextTree.New(h, cur, id, qty, callback)
    {
      GrownFits(h[cur]);
      var p := MakeRoom(h[cur]);
      var i := if p.qty == One then 0 else p.freeIdx;
      p := p.(slots := p.slots[i := Some(id)], freeIdx := if p.qty == Many then p.freeIdx + 1 else p.freeIdx);
      r := h[cur := p][id := Context(qty, [], 0, Some(cur), i, callback, AllocList.EMPTY)];
    }

    method New(cur: Id, id: Id, qty: Qty, callback: Callback)
      requires Whole(ctx, sh) && cur in ctx && id !in ctx && HasRoom(ctx[cur])
      modifies this
      ensures Whole(ctx, sh) && ctx == ContextTree.New(old(ctx), cur, id, qty, callback) && log == old(log)
    {
      hide Whole;
      hide ContextTree.New;
      WholeFacts(ctx, sh, cur);
      NewWhole(ctx, sh, cur, id, qty, callback);
      var next := Attach(ctx, cur, id, qty, callback);
      sh := ShapeAfterNew(sh, cur, id);
      ctx := next;
    }

    /** The child list part of memContextMove() */
    static method Transfer(h: Contexts, x: Id, dest: Id) returns (r: Contexts)
      requires x in h && Linked(h, x) && dest in h && h[dest].Valid() && HasRoom(h[dest]) && h[x].parent != Some(dest)
      ensures r == ContextTree.Move(h, x, dest)
    {
      GrownFits(h[dest]);
      var src := h[x].parent.value;
      var q := h[src].Cleared(h[x].parentIdx, false);
      var p := MakeRoom(h[dest]);
      var i := if p.qty == One then 0 else p.freeIdx;
      r := h[src := q][dest := p.(slots := p.slots[i := Some(x)])]
            [x := h[x].(parent := Some(dest), parentIdx := if p.qty == One then h[x].parentIdx else i)];
    }

    /** The tree and its shape after memContextMove() to another parent */
    static method Relocated(h: Contexts, ghost s: Shape, x: Id, dest: Id) returns (r: Contexts, ghost q: Shape)
      requires Whole(h, s) && x in h && x != TOP && dest in h && HasRoom(h[dest]) && !Under(h, s, dest, x)
      requires h[x].parent != Some(dest) && Linked(h, x) && h[dest].Valid()
      ensures Whole(r, q) && r == ContextTree.Move(h, x, dest)
    {
      MoveWhole(h, s, x, dest);
      r := Transfer(h, x, dest);
      q := ShapeAfterMove(h, s, x, dest);
    }

    /** memContextMove() */
    method Move(x: Id, dest: Id)
      requires Whole(ctx, sh) && x in ctx && x != TOP && dest in ctx && HasRoom(ctx[dest]) && !Under(ctx, sh, dest, x)
      modifies this
      ensures Whole(ctx, sh) && log == old(log) && old(Linked(ctx, x))
      ensures ctx == if old(ctx)[x].parent == Some(dest) then old(ctx) else ContextTree.Move(old(ctx), x, dest)
    {
      hide Whole;
      hide Under;
      hide Linked;
      hide ContextTree.Move;
      WholeFacts(ctx, sh, x);
      WholeFacts(ctx, sh, dest);
      if ctx[x].parent != Some(dest) {
        ctx, sh := Relocated(ctx, sh, x, dest);
      }
    }

    static method Allocated(h: Contexts, c: Id, a: AllocList.AllocId, size: nat) returns (r: Contexts)
      requires c in h && h[c].allocs.Valid() && AllocList.Legal(h[c].allocs, AllocList.OpNew(a, size))
      ensures r == AfterAlloc(h, c, AllocList.OpNew(a, size))
    {
      AllocList.NewValid(h[c].allocs, a, size);
      r := h[c := h[c].(allocs := h[c].allocs.New(a, size))];
    }

    /** memContextAllocNew() in the context */
    method AllocNew(c: Id, a: AllocList.AllocId, size: nat)
      requires Whole(ctx, sh) && LegalIn(ctx, c, AllocList.OpNew(a, size))
      modifies this`ctx
      ensures Whole(ctx, sh) && ctx == AfterAlloc(old(ctx), c, AllocList.OpNew(a, size))
    {
      AllocKeepsWhole(ctx, sh, c, AllocList.OpNew(a, size));
      LegalHere(ctx, sh, c, AllocList.OpNew(a, size));
      hide Whole;
      hide LegalIn;
      ctx := Allocated(ctx, c, a, size);
    }

    /** memContextAllocResize(), where the allocation has moved from `a` to `b` */
    method AllocResize(c: Id, a: AllocList.AllocId, b: AllocList.AllocId, size: nat)
      requires Whole(ctx, sh) && LegalIn(ctx, c, AllocList.OpResize(a, b, size))
      modifies this`ctx
      ensures Whole(ctx, sh) && ctx == AfterAlloc(old(ctx), c, AllocList.OpResize(a, b, size))
    {
      AllocKeepsWhole(ctx, sh, c, AllocList.OpResize(a, b, size));
      hide Whole;
      ctx := ctx[c := ctx[c].(allocs := ctx[c].allocs.Resize(a, b, size))];
    }

    /** memFree() */
    method AllocFree(c: Id, a: AllocList.AllocId)
      requires Whole(ctx, sh) && LegalIn(ctx, c, AllocList.OpFree(a))
      modifies this`ctx
      ensures Whole(ctx, sh) && ctx == AfterAlloc(old(ctx), c, AllocList.OpFree(a))
    {
      AllocKeepsWhole(ctx, sh, c, AllocList.OpFree(a));
      hide Whole;
      ctx := ctx[c := ctx[c].(allocs := ctx[c].allocs.Free(a))];
    }

    /** One turn of the child loop of memContextCallbackRecurse() */
    method CallSlot(c: Id, i: nat, ghost h: Contexts, ghost events: seq<Event>) returns (failed: bool, ghost more: seq<Event>)
      requires Calling(h, ctx, sh, c, i, events) && i < |h[c].slots|
      modifies this`ctx, this`log
      ensures failed ==> Called(h, ctx, sh, c, events + more) && Throws(h, Order(h, sh, c, true))
      ensures !failed ==> Calling(h, ctx, sh, c, i + 1, events + more)
      ensures log == old(log) + more
      decreases sh.bound - sh.level[c], 0
    {
      ghost var r := ctx;
      if ctx[c].slots[i].Some? {
        ClearedRunning(h, r, sh, c, i);
        ChildLevel(h, sh, c, i);
        more := Running(r, Order(r, sh, r[c].slots[i].value, true));
        failed := RunCallbacks(ctx[c].slots[i].value);
        CallingStep(h, r, ctx, sh, c, i, events);
      } else {
        failed, more := false, [];
        CallingSkip(h, r, sh, c, i, events);
        assert events + more == events;
      }
    }

    /** memContextCallbackRecurse(); true when a callback has thrown and the rest was skipped */
    method RunCallbacks(c: Id) returns (failed: bool)
      requires Valid(ctx, sh) && c in ctx
      modifies this`ctx, this`log
      ensures exists events :: Called(old(ctx), ctx, sh, c, events) && log == old(log) + events
      ensures failed <==> Throws(old(ctx), Order(old(ctx), sh, c, true))
      decreases sh.bound - sh.level[c], 1
    {
      hide Valid;
      hide CallbacksAfter;
      hide Cleared;
      ghost var h := ctx;
      var n := |ctx[c].slots|;
      ghost var events := CallbackEvent(ctx, c);
      if ctx[c].callback.Callback? {
        log := log + [Ran(c)];
        if ctx[c].callback.fails {
          CalledRoot(h, sh, c);
          return true;
        }
        ctx := ctx[c := ctx[c].(callback := NoCallback)];
      }
      CallingStart(h, ctx, sh, c);
      var i := 0;
      while i < n
        invariant 0 <= i <= n == |h[c].slots| && log == old(log) + events
        invariant Calling(h, ctx, sh, c, i, events)
      {
        ghost var more;
        failed, more := CallSlot(c, i, h, events);
        events := events + more;
        if failed {
          return true;
        }
        i := i + 1;
      }
      CallingEnd(h, ctx, sh, c, events);
      failed := false;
    }

    /** One turn of the child loop of memContextFreeRecurse() */
    method FreeSlot(c: Id, i: nat, ghost h: Contexts, ghost events: seq<Event>) returns (ghost more: seq<Event>)
      requires Freeing(h, ctx, sh, c, i, events) && i < |h[c].slots|
      modifies this`ctx, this`log
      ensures Freeing(h, ctx, sh, c, i + 1, events + more)
      ensures log == old(log) + more
      decreases sh.bound - sh.level[c], 0
    {
      hide Freeing;
      hide Valid;
      hide Under;
      hide Removed;
      FreeingFacts(h, ctx, sh, c, i, events);
      ghost var r := ctx;
      if ctx[c].slots[i].Some? {
        ChildLevel(r, sh, c, i);
        FreeRecurse(ctx[c].slots[i].value);
        more := Releases(r, Order(r, sh, r[c].slots[i].value, false));
        FreeingStep(h, r, ctx, sh, c, i, events);
      } else {
        more := [];
        FreeingSkip(h, r, sh, c, i, events);
        assert events + more == events;
      }
    }

    /** The child loop of memContextFreeRecurse() */
    method FreeChildren(c: Id) returns (ghost events: seq<Event>)
      requires Valid(ctx, sh) && c in ctx
      modifies this`ctx, this`log
      ensures Freeing(old(ctx), ctx, sh, c, |old(ctx)[c].slots|, events)
      ensures log == old(log) + events
      decreases sh.bound - sh.level[c], 1
    {
      hide Valid;
      ghost var h := ctx;
      var n := |ctx[c].slots|;
      var i := 0;
      events := [];
      FreeingStart(h, sh, c);
      while i < n
        invariant 0 <= i <= n == |h[c].slots| && log == old(log) + events
        invariant Freeing(h, ctx, sh, c, i, events)
      {
        ghost var more := FreeSlot(c, i, h, events);
        events := events + more;
        i := i + 1;
      }
    }

    /** The allocation loop of memContextFreeRecurse() */
    method FreeAllocs(c: Id)
      requires c in ctx
      modifies this`log
      ensures log == old(log) + AllocReleases(ctx[c].allocs.list)
    {
      var list := ctx[c].allocs.list;
      var i := 0;
      while i < |list|
        invariant 0 <= i <= |list| && log == old(log) + AllocReleases(list[..i])
      {
        assert list[..i + 1][..i] == list[..i];
        if list[i].Some? {
          log := log + [ReleasedAlloc(list[i].value)];
        }
        i := i + 1;
      }
      assert list[..i] == list;
    }

    /** memContextFreeRecurse() */
    method FreeRecurse(c: Id)
      requires Valid(ctx, sh) && c in ctx
      modifies this`ctx, this`log
      ensures Valid(ctx, sh) && Freed(old(ctx), ctx, sh, c)
      ensures log == old(log) + Releases(old(ctx), Order(old(ctx), sh, c, false))
      decreases sh.bound - sh.level[c], 2
    {
      hide Valid;
      hide Freeing;
      hide Freed;
      hide Releases;
      ghost var h := ctx;
      ghost var events := FreeChildren(c);
      FreeingFacts(h, ctx, sh, c, |h[c].slots|, events);
      FreeingEnd(h, ctx, sh, c, events);
      assert c != TOP ==> Linked(ctx, c);
      FreeAllocs(c);
      if c != TOP {
        log := log + [Released(c)];
      }
      var r := Unhook(ctx, c);
      FreedValid(h, ctx, r, sh, c, events);
      ctx := r;
    }

    /** memContextFree(): callbacks first, then everything is released even if a callback has thrown */
    method Free(c: Id) returns (failed: bool)
      requires Whole(ctx, sh) && c in ctx
      modifies this`ctx, this`log
      ensures Whole(ctx, sh)
      ensures AfterFree(old(ctx), ctx, sh, c)
      ensures forall x | x in ctx :: ctx[x].allocs == if c == TOP then AllocList.EMPTY else old(ctx)[x].allocs
      ensures failed <==> Throws(old(ctx), Order(old(ctx), sh, c, true))
      ensures log == old(log) + Running(old(ctx), Order(old(ctx), sh, c, true))
                     + Releases(old(ctx), Order(old(ctx), sh, c, false))
    {
      hide AllocsApart;
      ghost var h := ctx;
      failed := RunCallbacks(c);
      ghost var r := ctx;
      ghost var events :| Called(h, r, sh, c, events) && log == old(log) + events;
      CallbacksKeepValid(h, r, sh);
      FreeRecurse(c);
      FreedAfterCalls(h, r, ctx, sh, c, events);
      AllocsAfterFree(h, ctx, sh, c);
      hide AfterFree;
      StillApart(h, ctx);
    }
  }

  /** What freeing `c` leaves: its subtree is gone, the slot that it had is empty, and the free index of its parent is not
      above that slot; nothing else has changed. Of the top context only its callback is left as calling it left it. */
  ghost predicate AfterFree(h: Contexts, r: Contexts, sh: Shape, c: Id)
    requires Valid(h, sh) && c in h
  {
    if c == TOP then
      r.Keys == {TOP} && r[TOP] == Context(Many, [], 0, None, h[TOP].parentIdx, r[TOP].callback, AllocList.EMPTY)
    else
      assert Linked(h, c);
      var p := h[c].parent.value;
      var i := if h[p].qty == One then 0 else h[c].parentIdx;
      && r.Keys == h.Keys - Subtree(h, sh, c) && p in r
      && (forall x | x in r && x != p :: r[x] == h[x])
      && r[p] == h[p].(slots := r[p].slots, freeIdx := r[p].freeIdx)
      && |r[p].slots| == |h[p].slots| && r[p].slots[i] == None
      && (forall j | 0 <= j < |h[p].slots| && j != i :: r[p].slots[j] == h[p].slots[j])
      && r[p].freeIdx == if h[p].qty == Many && i < h[p].freeIdx then i else h[p].freeIdx
  }

  lemma AllocsAfterFree(h: Contexts, r: Contexts, sh: Shape, c: Id)
    requires Valid(h, sh) && c in h && AfterFree(h, r, sh, c)
    ensures forall x | x in r ::
              x in h && r[x].allocs == if c == TOP then AllocList.EMPTY else h[x].allocs
  {
  }

  lemma AfterFreeKeepsDense(h: Contexts, r: Contexts, sh: Shape, c: Id)
    requires Valid(h, sh) && c in h && AfterFree(h, r, sh, c) && AllDense(h)
    ensures AllDense(r)
  {
    if c != TOP {
      assert Linked(h, c);
      assert h[h[c].parent.value].Valid();
    }
  }

  /** The next context below the same parent takes a slot not above the one that was freed, and the list does not grow. */
  lemma FreedSlotIsReused(h: Contexts, r: Contexts, sh: Shape, c: Id, id: Id, qty: Qty, callback: Callback)
    requires Valid(h, sh) && Valid(r, sh) && c in h && c != TOP && AfterFree(h, r, sh, c) && id !in r
    ensures Linked(h, c) && h[c].parent.value in r && HasRoom(r[h[c].parent.value])
    ensures var p := h[c].parent.value;
            var s := New(r, p, id, qty, callback);
            && |s[p].slots| == |h[p].slots|
            && (h[p].qty == Many ==> s[id].parentIdx <= h[c].parentIdx)
  {
    assert Linked(h, c);
    var p := h[c].parent.value;
    assert r[p].Valid() && h[p].Valid();
    if h[p].qty == Many {
      DoublesExactlyWhen(r[p]);
    }
  }

  // ----- Runs without moves -----

  datatype TreeOp = OpNew(cur: Id, id: Id, qty: Qty, callback: Callback) | OpFree(c: Id)

  /** One operation leads from `h` to `r`. */
  ghost predicate Does(h: Contexts, sh: Shape, op: TreeOp, r: Contexts, sh': Shape) {
    && Valid(h, sh) && Valid(r, sh')
    && match op
       case OpNew(cur, id, qty, callback) =>
         cur in h && id !in h && HasRoom(h[cur]) && r == New(h, cur, id, qty, callback)
       case OpFree(c) => c in h && AfterFree(h, r, sh, c)
  }

  /** Trees and shapes that a series of operations leads through. */
  ghost predicate IsRun(trees: seq<(Contexts, Shape)>, ops: seq<TreeOp>) {
    && |trees| == |ops| + 1 && trees[0] == (TOP_ONLY, TOP_SHAPE)
    && forall i | 0 <= i < |ops| :: Does(trees[i].0, trees[i].1, ops[i], trees[i + 1].0, trees[i + 1].1)
  }

  lemma {:induction false} RunIsDense(trees: seq<(Contexts, Shape)>, ops: seq<TreeOp>, n: nat)
    requires IsRun(trees, ops) && n < |trees|
    ensures AllDense(trees[n].0)
    decreases n
  {
    if n > 0 {
      hide Does;
      hide AllDense;
      RunIsDense(trees, ops, n - 1);
      OpKeepsDense(trees[n - 1].0, trees[n - 1].1, ops[n - 1], trees[n].0, trees[n].1);
    } else {
      assert trees[0].0 == TOP_ONLY;
    }
  }

  lemma OpKeepsDense(h: Contexts, sh: Shape, op: TreeOp, r: Contexts, sh': Shape)
    requires Does(h, sh, op, r, sh') && AllDense(h)
    ensures AllDense(r)
  {
    assert forall x | x in h :: h[x].Valid();
    hide Valid;
    hide AfterFree;
    hide ContextTree.New;
    hide AllDense;
    match op
    case OpNew(cur, id, qty, callback) => NewKeepsDense(h, cur, id, qty, callback);
    case OpFree(c) => AfterFreeKeepsDense(h, r, sh, c);
  }

  /** Over every run of new and free, without moves, a new context takes the first empty slot of its parent, and the list of
      children doubles exactly when it is full. */
  lemma RunDoublesOnlyWhenFull(trees: seq<(Contexts, Shape)>, ops: seq<TreeOp>, n: nat)
    requires IsRun(trees, ops) && n < |ops| && ops[n].OpNew? && ops[n].cur in trees[n].0
    requires trees[n].0[ops[n].cur].qty == Many && trees[n].0[ops[n].cur].slots != []
    ensures var p, q := trees[n].0[ops[n].cur], trees[n + 1].0[ops[n].cur];
            && (|q.slots| == 2 * |p.slots| <==> forall j | 0 <= j < |p.slots| :: p.slots[j].Some?)
            && (|q.slots| == 2 * |p.slots| || |q.slots| == |p.slots|)
            && forall j | 0 <= j < trees[n + 1].0[ops[n].id].parentIdx :: q.slots[j].Some?
  {
    RunIsDense(trees, ops, n);
    var (h, sh) := trees[n];
    var op := ops[n];
    assert Does(h, sh, op, trees[n + 1].0, trees[n + 1].1);
    assert h[op.cur].Valid() && Dense(h[op.cur]);
    DenseDoublesOnlyWhenFull(h[op.cur]);
    DoublesExactlyWhen(h[op.cur]);
    NewKeepsDense(h, op.cur, op.id, op.qty, op.callback);
  }

  lemma FreedAfterCalls(h: Contexts, r: Contexts, f: Contexts, sh: Shape, c: Id, events: seq<Event>)
    requires Valid(h, sh) && Valid(r, sh) && c in h && Called(h, r, sh, c, events) && Freed(r, f, sh, c)
    ensures AfterFree(h, f, sh, c)
    ensures Releases(r, Order(r, sh, c, false)) == Releases(h, Order(h, sh, c, false))
  {
    hide Releases;
    hide Order;
    hide Under;
    CallbacksKeepOrder(h, r, sh, c, false);
    forall x | x in Order(h, sh, c, false) ensures x in h && x in r && r[x].allocs == h[x].allocs {
      OrderElements(h, sh, c, false, x);
    }
    ReleasesSame(h, r, Order(h, sh, c, false));
    StateAfterCalls(h, r, f, sh, c, events);
  }

  lemma FreedIsAfterFree(h: Contexts, r: Contexts, sh: Shape, c: Id)
    requires Valid(h, sh) && c in h && Freed(h, r, sh, c)
    ensures AfterFree(h, r, sh, c)
  {
    assert c != TOP ==> Linked(h, c);
    assert h[TOP].qty == Many && h[TOP].parent == None;
    hide Valid;
    hide Linked;
    hide Under;
  }

  /** Calling the callbacks of the subtree changes nothing that stays. */
  lemma StateAfterCalls(h: Contexts, r: Contexts, f: Contexts, sh: Shape, c: Id, events: seq<Event>)
    requires Valid(h, sh) && Valid(r, sh) && c in h && Called(h, r, sh, c, events) && Freed(r, f, sh, c)
    ensures AfterFree(h, f, sh, c)
  {
    FreedIsAfterFree(r, f, sh, c);
    hide Freed;
    SubtreeSame(h, r, sh, c);
    if c != TOP {
      ParentIsNotUnder(h, sh, c);
      ParentIsNotUnder(r, sh, c);
      StaysSame(h, r, sh, c, events);
    }
    hide Called;
    hide Under;
    hide Valid;
    hide Linked;
  }

  lemma StaysSame(h: Contexts, r: Contexts, sh: Shape, c: Id, events: seq<Event>)
    requires Valid(h, sh) && Valid(r, sh) && c in h && Called(h, r, sh, c, events)
    ensures r.Keys == h.Keys && r[c].parent == h[c].parent && r[c].parentIdx == h[c].parentIdx
    ensures forall x | x in h && x !in Subtree(h, sh, c) :: r[x] == h[x]
  {
    hide Valid;
  }

  lemma ParentIsNotUnder(h: Contexts, sh: Shape, c: Id)
    requires Valid(h, sh) && c in h && c != TOP
    ensures Linked(h, c) && !Under(h, sh, h[c].parent.value, c)
  {
    assert Linked(h, c);
    if Under(h, sh, h[c].parent.value, c) {
      UnderLevel(h, sh, h[c].parent.value, c);
    }
  }

  lemma SubtreeSame(h: Contexts, r: Contexts, sh: Shape, c: Id)
    requires Valid(h, sh) && Valid(r, sh) && SameButCallbacks(h, r)
    ensures Subtree(r, sh, c) == Subtree(h, sh, c)
  {
    forall x | x in h ensures Under(r, sh, x, c) <==> Under(h, sh, x, c) {
      UnderSame(h, r, sh, x, c);
    }
  }

  // ----- Each once -----

  lemma {:induction false} RunningExactly(h: Contexts, ids: seq<Id>, x: Id)
    requires NoDuplicates(ids) && !Throws(h, ids)
    ensures multiset(Running(h, ids))[Ran(x)] == if x in ids && CallbackOf(h, x).Callback? then 1 else 0
  {
    if ids != [] {
      RunningExactly(h, ids[1..], x);
      assert ids == [ids[0]] + ids[1..];
      assert forall j | 0 <= j < |ids[1..]| :: ids[1..][j] == ids[j + 1] != ids[0];
    }
  }

  lemma SlotHolds(s: AllocList.Allocs, i: nat, a: AllocList.AllocId)
    requires s.Valid() && i < |s.list|
    ensures s.list[i] == Some(a) <==> a in s.headers && s.headers[a].allocIdx == i
  {
  }

  /** The slots of a list in order give back each of its allocations once. */
  lemma {:induction false} AllocReleasesExactly(s: AllocList.Allocs, n: nat, a: AllocList.AllocId)
    requires s.Valid() && n <= |s.list|
    ensures multiset(AllocReleases(s.list[..n]))[ReleasedAlloc(a)] ==
            if a in s.headers && s.headers[a].allocIdx < n then 1 else 0
    ensures forall x :: multiset(AllocReleases(s.list[..n]))[Released(x)] == 0
    decreases n
  {
    if n > 0 {
      AllocReleasesExactly(s, n - 1, a);
      SlotHolds(s, n - 1, a);
      assert s.list[..n][..n - 1] == s.list[..n - 1];
    }
    hide AllocList.Allocs.Valid;
  }

  lemma ReleaseOfExactly(h: Contexts, y: Id, x: Id, a: AllocList.AllocId)
    requires y in h && h[y].allocs.Valid()
    ensures multiset(ReleaseOf(h, y))[Released(x)] == if y == x && x != TOP then 1 else 0
    ensures multiset(ReleaseOf(h, y))[ReleasedAlloc(a)] == if a in h[y].allocs.headers then 1 else 0
  {
    var s := h[y].allocs;
    AllocReleasesExactly(s, |s.list|, a);
    assert s.list[..|s.list|] == s.list;
  }

  lemma BelongsOnce(h: Contexts, x: Id, y: Id, a: AllocList.AllocId)
    requires AllocsApart(h) && x in h && y in h && (a in h[x].allocs.headers || NotLive(h, a))
    ensures h[y].allocs.Valid() && (y != x ==> a !in h[y].allocs.headers)
  {
  }

  lemma {:induction false} ReleasesExactly(h: Contexts, ids: seq<Id>, x: Id, a: AllocList.AllocId)
    requires NoDuplicates(ids) && x in h && AllocsApart(h) && (forall y | y in ids :: y in h)
    requires a in h[x].allocs.headers || NotLive(h, a)
    ensures multiset(Releases(h, ids))[Released(x)] == if x in ids && x != TOP then 1 else 0
    ensures multiset(Releases(h, ids))[ReleasedAlloc(a)] == if x in ids && a in h[x].allocs.headers then 1 else 0
  {
    hide ReleaseOf;
    hide AllocsApart;
    hide NotLive;
    hide AllocList.Allocs.Valid;
    if ids != [] {
      var n := |ids| - 1;
      var y := ids[n];
      assert ids == ids[..n] + [y];
      assert forall j | 0 <= j < n :: ids[..n][j] == ids[j] != y;
      ReleasesExactly(h, ids[..n], x, a);
      BelongsOnce(h, x, y, a);
      ReleaseOfExactly(h, y, x, a);
    }
  }

  /** Freeing `c` when no callback throws: in the subtree, and nowhere else, each set callback runs once. */
  lemma FreeCallsEachOnce(h: Contexts, sh: Shape, c: Id, x: Id)
    requires Valid(h, sh) && c in h && x in h && !Throws(h, Order(h, sh, c, true))
    ensures multiset(Running(h, Order(h, sh, c, true)))[Ran(x)] ==
            if Under(h, sh, x, c) && h[x].callback.Callback? then 1 else 0
  {
    OrderNoDuplicates(h, sh, c, true);
    OrderElements(h, sh, c, true, x);
    RunningExactly(h, Order(h, sh, c, true), x);
  }

  /** Freeing `c`, whether or not a callback throws: in the subtree, and nowhere else, each context (but the top one, which
      stays) is given back once, and so is each live allocation of each context. */
  lemma FreeDoesEachOnce(h: Contexts, sh: Shape, c: Id, x: Id, a: AllocList.AllocId)
    requires Whole(h, sh) && c in h && x in h
    requires a in h[x].allocs.headers || NotLive(h, a)
    ensures multiset(Releases(h, Order(h, sh, c, false)))[Released(x)] == if Under(h, sh, x, c) && x != TOP then 1 else 0
    ensures multiset(Releases(h, Order(h, sh, c, false)))[ReleasedAlloc(a)] ==
            if Under(h, sh, x, c) && a in h[x].allocs.headers then 1 else 0
  {
    hide AllocsApart;
    OrderNoDuplicates(h, sh, c, false);
    OrderElements(h, sh, c, false, x);
    forall y | y in Order(h, sh, c, false)
      ensures y in h
    {
      OrderElements(h, sh, c, false, y);
    }
    ReleasesExactly(h, Order(h, sh, c, false), x, a);
  }
}
