/** memContextFree(): callbacks of a whole subtree first, then every context and allocation in it. */
module ContextFree {
  import opened Wrappers
  import opened ContextTree

  // ----- Listing a subtree -----

  /** The contexts of a subtree, each before (pre) or after its children, children in slot order. */
  ghost function Order(h: Contexts, sh: Shape, c: Id, pre: bool): seq<Id>
    requires Valid(h, sh) && c in h
    decreases sh.bound - sh.level[c], 1, 0
  {
    (if pre then [c] else []) + SlotsOrder(h, sh, c, pre, |h[c].slots|) + (if pre then [] else [c])
  }

  /** The subtrees of the first `n` slots of `c`, one after the other. */
  ghost function SlotsOrder(h: Contexts, sh: Shape, c: Id, pre: bool, n: nat): seq<Id>
    requires Valid(h, sh) && c in h && n <= |h[c].slots|
    decreases sh.bound - sh.level[c], 0, n
  {
    if n == 0 then []
    else
      SlotsOrder(h, sh, c, pre, n - 1) +
      (if h[c].slots[n - 1].None? then []
       else assert Owned(h, c, n - 1); assert Linked(h, h[c].slots[n - 1].value); Order(h, sh, h[c].slots[n - 1].value, pre))
  }

  lemma ChildLevel(h: Contexts, sh: Shape, c: Id, i: nat)
    requires Valid(h, sh) && c in h && i < |h[c].slots| && h[c].slots[i].Some?
    ensures var x := h[c].slots[i].value;
            x in h && x != TOP && h[x].parent == Some(c) && sh.level[x] == sh.level[c] + 1 && Under(h, sh, x, c)
  {
    assert Owned(h, c, i);
    assert Linked(h, h[c].slots[i].value);
    assert Under(h, sh, c, c);
  }

  lemma {:induction false} UnderTrans(h: Contexts, sh: Shape, x: Id, b: Id, c: Id)
    requires Valid(h, sh) && x in h && b in h && Under(h, sh, x, b) && Under(h, sh, b, c)
    ensures Under(h, sh, x, c)
    decreases sh.level[x]
  {
    if x != b {
      assert Linked(h, x);
      UnderTrans(h, sh, h[x].parent.value, b, c);
    }
  }

  /** Chains pass through one context per level. */
  lemma {:induction false} UnderUnique(h: Contexts, sh: Shape, x: Id, a: Id, b: Id)
    requires Valid(h, sh) && x in h && Under(h, sh, x, a) && Under(h, sh, x, b)
    requires a in h && b in h && sh.level[a] == sh.level[b]
    ensures a == b
    decreases sh.level[x]
  {
    UnderLevel(h, sh, x, a);
    if x != a && x != b {
      assert Linked(h, x);
      UnderUnique(h, sh, h[x].parent.value, a, b);
    } else if x != a {
      assert Linked(h, x);
      UnderLevel(h, sh, h[x].parent.value, a);
    } else if x != b {
      assert Linked(h, x);
      UnderLevel(h, sh, h[x].parent.value, b);
    }
  }

  /** A proper descendant is below one of the children. */
  lemma {:induction false} UnderChild(h: Contexts, sh: Shape, x: Id, c: Id) returns (i: nat)
    requires Valid(h, sh) && x in h && c in h && x != c && Under(h, sh, x, c)
    ensures i < |h[c].slots| && h[c].slots[i].Some? && h[c].slots[i].value in h && Under(h, sh, x, h[c].slots[i].value)
    decreases sh.level[x]
  {
    assert Linked(h, x);
    var p := h[x].parent.value;
    if p == c {
      i := h[c].SlotOf(h[x].parentIdx);
      assert Under(h, sh, x, x);
    } else {
      i := UnderChild(h, sh, p, c);
      assert x != h[c].slots[i].value ==> Under(h, sh, x, h[c].slots[i].value);
    }
  }

  /** `x` is below the child in one of the first `n` slots of `c`. */
  ghost predicate UnderSlots(h: Contexts, sh: Shape, c: Id, n: nat, x: Id)
    requires Valid(h, sh) && c in h && n <= |h[c].slots| && x in h
  {
    exists i | 0 <= i < n :: h[c].slots[i].Some? && Under(h, sh, x, h[c].slots[i].value)
  }

  lemma UnderSlotsStep(h: Contexts, sh: Shape, c: Id, n: nat, x: Id)
    requires Valid(h, sh) && c in h && 0 < n <= |h[c].slots| && x in h
    ensures UnderSlots(h, sh, c, n, x) <==>
            UnderSlots(h, sh, c, n - 1, x) || (h[c].slots[n - 1].Some? && Under(h, sh, x, h[c].slots[n - 1].value))
  {
  }

  /** What slot `n` of `c` adds to the listing. */
  ghost function SlotOrder(h: Contexts, sh: Shape, c: Id, pre: bool, n: nat): seq<Id>
    requires Valid(h, sh) && c in h && n < |h[c].slots|
  {
    if h[c].slots[n].None? then [] else ChildLevel(h, sh, c, n); Order(h, sh, h[c].slots[n].value, pre)
  }

  lemma SlotsStep(h: Contexts, sh: Shape, c: Id, pre: bool, n: nat)
    requires Valid(h, sh) && c in h && n < |h[c].slots|
    ensures SlotsOrder(h, sh, c, pre, n + 1) == SlotsOrder(h, sh, c, pre, n) + SlotOrder(h, sh, c, pre, n)
  {
  }

  /** The listing has exactly the contexts of the subtree ... */
  lemma {:induction false} OrderElements(h: Contexts, sh: Shape, c: Id, pre: bool, x: Id)
    requires Valid(h, sh) && c in h
    ensures x in Order(h, sh, c, pre) <==> x in h && Under(h, sh, x, c)
    decreases sh.bound - sh.level[c], 1, 0
  {
    var n := |h[c].slots|;
    SlotsElements(h, sh, c, pre, n, x);
    if x in h && x != c {
      if Under(h, sh, x, c) {
        var i := UnderChild(h, sh, x, c);
        assert UnderSlots(h, sh, c, n, x);
      }
      if UnderSlots(h, sh, c, n, x) {
        var i :| 0 <= i < n && h[c].slots[i].Some? && Under(h, sh, x, h[c].slots[i].value);
        ChildLevel(h, sh, c, i);
        UnderTrans(h, sh, x, h[c].slots[i].value, c);
      }
    }
  }

  lemma {:induction false} SlotsElements(h: Contexts, sh: Shape, c: Id, pre: bool, n: nat, x: Id)
    requires Valid(h, sh) && c in h && n <= |h[c].slots|
    ensures x in SlotsOrder(h, sh, c, pre, n) <==> x in h && UnderSlots(h, sh, c, n, x)
    decreases sh.bound - sh.level[c], 0, 2 * n
  {
    hide Valid;
    hide SlotsOrder;
    hide SlotOrder;
    hide Under;
    hide UnderSlots;
    if n == 0 {
      NoSlots(h, sh, c, pre);
    } else {
      SlotsElements(h, sh, c, pre, n - 1, x);
      SlotElements(h, sh, c, pre, n - 1, x);
      SlotsStep(h, sh, c, pre, n - 1);
      InAppended(SlotsOrder(h, sh, c, pre, n - 1), SlotOrder(h, sh, c, pre, n - 1), x);
      if x in h {
        UnderSlotsStep(h, sh, c, n, x);
      }
    }
  }

  lemma NoSlots(h: Contexts, sh: Shape, c: Id, pre: bool)
    requires Valid(h, sh) && c in h
    ensures SlotsOrder(h, sh, c, pre, 0) == [] && NoDuplicates([])
    ensures forall x | x in h :: !UnderSlots(h, sh, c, 0, x)
  {
  }

  lemma InAppended(a: seq<Id>, b: seq<Id>, x: Id)
    ensures x in a + b <==> x in a || x in b
  {
  }

  lemma {:induction false} SlotElements(h: Contexts, sh: Shape, c: Id, pre: bool, n: nat, x: Id)
    requires Valid(h, sh) && c in h && n < |h[c].slots|
    ensures x in SlotOrder(h, sh, c, pre, n) <==>
            h[c].slots[n].Some? && x in h && Under(h, sh, x, h[c].slots[n].value)
    decreases sh.bound - sh.level[c], 0, 2 * n + 1
  {
    hide Under;
    if h[c].slots[n].Some? {
      ChildLevel(h, sh, c, n);
      OrderElements(h, sh, h[c].slots[n].value, pre, x);
    }
  }

  ghost predicate NoDuplicates(s: seq<Id>) {
    forall i, j | 0 <= i < j < |s| :: s[i] != s[j]
  }

  lemma NoDuplicatesAppend(a: seq<Id>, b: seq<Id>)
    requires NoDuplicates(a) && NoDuplicates(b) && forall x | x in a :: x !in b
    ensures NoDuplicates(a + b)
  {
    forall i, j | 0 <= i < j < |a + b| ensures (a + b)[i] != (a + b)[j] {
      if i < |a| <= j {
        assert a[i] in a && b[j - |a|] in b;
      }
    }
  }

  lemma NotBelowItself(h: Contexts, sh: Shape, c: Id, pre: bool)
    requires Valid(h, sh) && c in h
    ensures c !in SlotsOrder(h, sh, c, pre, |h[c].slots|)
  {
    hide SlotsOrder;
    hide Under;
    var n := |h[c].slots|;
    SlotsElements(h, sh, c, pre, n, c);
    forall i | 0 <= i < n && h[c].slots[i].Some?
      ensures !Under(h, sh, c, h[c].slots[i].value)
    {
      ChildLevel(h, sh, c, i);
      if Under(h, sh, c, h[c].slots[i].value) {
        UnderLevel(h, sh, c, h[c].slots[i].value);
      }
    }
  }

  /** ... each of them once. */
  lemma {:induction false} OrderNoDuplicates(h: Contexts, sh: Shape, c: Id, pre: bool)
    requires Valid(h, sh) && c in h
    ensures NoDuplicates(Order(h, sh, c, pre))
    decreases sh.bound - sh.level[c], 1, 0
  {
    hide SlotsOrder;
    var n := |h[c].slots|;
    var below := SlotsOrder(h, sh, c, pre, n);
    SlotsNoDuplicates(h, sh, c, pre, n);
    NotBelowItself(h, sh, c, pre);
    NoDuplicatesAppend([c], below);
    NoDuplicatesAppend(below, [c]);
    assert Order(h, sh, c, pre) == if pre then [c] + below else below + [c];
  }

  lemma {:induction false} SlotsNoDuplicates(h: Contexts, sh: Shape, c: Id, pre: bool, n: nat)
    requires Valid(h, sh) && c in h && n <= |h[c].slots|
    ensures NoDuplicates(SlotsOrder(h, sh, c, pre, n))
    decreases sh.bound - sh.level[c], 0, n
  {
    hide Valid;
    hide SlotsOrder;
    hide SlotOrder;
    hide NoDuplicates;
    if n == 0 {
      NoSlots(h, sh, c, pre);
    } else {
      SlotsNoDuplicates(h, sh, c, pre, n - 1);
      SlotNoDuplicates(h, sh, c, pre, n - 1);
      SlotsApart(h, sh, c, pre, n - 1);
      SlotsStep(h, sh, c, pre, n - 1);
      NoDuplicatesAppend(SlotsOrder(h, sh, c, pre, n - 1), SlotOrder(h, sh, c, pre, n - 1));
    }
  }

  lemma {:induction false} SlotNoDuplicates(h: Contexts, sh: Shape, c: Id, pre: bool, n: nat)
    requires Valid(h, sh) && c in h && n < |h[c].slots|
    ensures NoDuplicates(SlotOrder(h, sh, c, pre, n))
    decreases sh.bound - sh.level[c], 0, n
  {
    if h[c].slots[n].Some? {
      ChildLevel(h, sh, c, n);
      OrderNoDuplicates(h, sh, h[c].slots[n].value, pre);
    }
  }

  lemma SlotsApart(h: Contexts, sh: Shape, c: Id, pre: bool, n: nat)
    requires Valid(h, sh) && c in h && n < |h[c].slots|
    ensures forall x | x in SlotsOrder(h, sh, c, pre, n) :: x !in SlotOrder(h, sh, c, pre, n)
  {
    if h[c].slots[n].Some? {
      forall x | x in SlotsOrder(h, sh, c, pre, n) ensures x !in SlotOrder(h, sh, c, pre, n) {
        SlotsDisjoint(h, sh, c, pre, n, x);
      }
    }
  }

  /** Children in different slots have nothing in common below them. */
  lemma SlotsDisjoint(h: Contexts, sh: Shape, c: Id, pre: bool, n: nat, x: Id)
    requires Valid(h, sh) && c in h && n < |h[c].slots| && h[c].slots[n].Some?
    requires x in SlotsOrder(h, sh, c, pre, n)
    ensures h[c].slots[n].value in h && x !in Order(h, sh, h[c].slots[n].value, pre)
    ensures x in h && !Under(h, sh, x, h[c].slots[n].value)
  {
    var k := h[c].slots[n].value;
    ChildLevel(h, sh, c, n);
    SlotsElements(h, sh, c, pre, n, x);
    OrderElements(h, sh, k, pre, x);
    var i :| 0 <= i < n && h[c].slots[i].Some? && Under(h, sh, x, h[c].slots[i].value);
    ChildLevel(h, sh, c, i);
    if Under(h, sh, x, k) {
      UnderUnique(h, sh, x, k, h[c].slots[i].value);
      OneSlot(h, sh, k);
      assert false;
    }
  }

  /** Everyone in `s` but the contexts in `roots` comes after (pre) or before its parent, which is in `s` too. */
  ghost predicate ParentsFirst(h: Contexts, s: seq<Id>, roots: set<Id>, pre: bool) {
    forall j | 0 <= j < |s| && s[j] !in roots ::
      s[j] in h && h[s[j]].parent.Some? &&
      exists i | 0 <= i < |s| :: s[i] == h[s[j]].parent.value && (if pre then i < j else j < i)
  }

  lemma ParentsFirstAppend(h: Contexts, a: seq<Id>, b: seq<Id>, roots: set<Id>, pre: bool)
    requires ParentsFirst(h, a, roots, pre) && ParentsFirst(h, b, roots, pre)
    ensures ParentsFirst(h, a + b, roots, pre)
  {
    var s := a + b;
    forall j | 0 <= j < |s| && s[j] !in roots
      ensures s[j] in h && h[s[j]].parent.Some? &&
              exists i | 0 <= i < |s| :: s[i] == h[s[j]].parent.value && (if pre then i < j else j < i)
    {
      if j < |a| {
        var i :| 0 <= i < |a| && a[i] == h[a[j]].parent.value && (if pre then i < j else j < i);
        assert s[i] == a[i];
      } else {
        var k := j - |a|;
        assert b[k] !in roots;
        var i :| 0 <= i < |b| && b[i] == h[b[k]].parent.value && (if pre then i < k else k < i);
        assert s[|a| + i] == b[i];
      }
    }
  }

  ghost function Children(h: Contexts, c: Id): set<Id> {
    set x | x in h && h[x].parent == Some(c)
  }

  lemma {:induction false} SlotsParents(h: Contexts, sh: Shape, c: Id, pre: bool, n: nat)
    requires Valid(h, sh) && c in h && n <= |h[c].slots|
    ensures ParentsFirst(h, SlotsOrder(h, sh, c, pre, n), Children(h, c), pre)
    decreases sh.bound - sh.level[c], 0, n
  {
    if n > 0 {
      SlotsStep(h, sh, c, pre, n - 1);
      SlotsParents(h, sh, c, pre, n - 1);
      SlotParents(h, sh, c, pre, n - 1);
      ParentsFirstAppend(h, SlotsOrder(h, sh, c, pre, n - 1), SlotOrder(h, sh, c, pre, n - 1), Children(h, c), pre);
    }
  }

  lemma {:induction false} SlotParents(h: Contexts, sh: Shape, c: Id, pre: bool, n: nat)
    requires Valid(h, sh) && c in h && n < |h[c].slots|
    ensures ParentsFirst(h, SlotOrder(h, sh, c, pre, n), Children(h, c), pre)
    decreases sh.bound - sh.level[c], 0, n
  {
    if h[c].slots[n].Some? {
      ChildLevel(h, sh, c, n);
      OrderParents(h, sh, h[c].slots[n].value, pre);
    }
  }

  /** A callback runs after the parent's callback, and a context is released before its parent. */
  lemma {:induction false} OrderParents(h: Contexts, sh: Shape, c: Id, pre: bool)
    requires Valid(h, sh) && c in h
    ensures ParentsFirst(h, Order(h, sh, c, pre), {c}, pre)
    decreases sh.bound - sh.level[c], 1, 0
  {
    var below := SlotsOrder(h, sh, c, pre, |h[c].slots|);
    SlotsParents(h, sh, c, pre, |h[c].slots|);
    var s := Order(h, sh, c, pre);
    assert s == if pre then [c] + below else below + [c];
    forall x | x in below ensures x in h {
      SlotsElements(h, sh, c, pre, |h[c].slots|, x);
    }
    WithParent(h, below, c, pre);
  }

  lemma WithParent(h: Contexts, below: seq<Id>, c: Id, pre: bool)
    requires ParentsFirst(h, below, Children(h, c), pre)
    requires forall x | x in below :: x in h
    ensures ParentsFirst(h, if pre then [c] + below else below + [c], {c}, pre)
  {
    var s := if pre then [c] + below else below + [c];
    var at := if pre then 0 else |below|;
    forall j | 0 <= j < |s| && s[j] != c
      ensures s[j] in h && h[s[j]].parent.Some? &&
              exists i | 0 <= i < |s| :: s[i] == h[s[j]].parent.value && (if pre then i < j else j < i)
    {
      var k := if pre then j - 1 else j;
      assert below[k] == s[j];
      if below[k] in Children(h, c) {
        assert s[at] == c;
      } else {
        var i :| 0 <= i < |below| && below[i] == h[below[k]].parent.value && (if pre then i < k else k < i);
        assert s[if pre then i + 1 else i] == below[i];
      }
    }
  }
}
