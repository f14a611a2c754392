/** The ownership tree of memory contexts: child lists, parent links and what freeing a context does. */
module ContextTree {
  import opened Wrappers
  import AllocList

  const MEM_CONTEXT_INITIAL_SIZE: nat := 4

  type Id = nat

  /** How many children a context may have. */
  datatype Qty = Childless | One | Many

  /** A callback may throw; the context is freed all the same. */
  datatype Callback = NoCallback | Callback(fails: bool)

  /** A context. `slots` is the child list, of length one for quantity One; `parentIdx` is only meaningful below a
      parent of quantity Many. */
  datatype Context = Context(
    qty: Qty,
    slots: seq<Option<Id>>,
    freeIdx: nat,
    parent: Option<Id>,
    parentIdx: nat,
    callback: Callback,
    allocs: AllocList.Allocs)
  {
    /** childInitialized is `slots != []`. */
    ghost predicate Valid() {
      && (qty == Childless ==> slots == [])
      && (qty == One ==> |slots| <= 1)
      && (qty == Many ==> (slots == [] || |slots| >= MEM_CONTEXT_INITIAL_SIZE) && freeIdx <= |slots|)
    }

    /** The slot in this list that a child with index `idx` has. */
    function SlotOf(idx: nat): nat {
      if qty == One then 0 else idx
    }

    /** Make room for one more child: memContextNewIndex(), or the only slot for quantity One. */
    function Grown(): Context
      requires qty != Childless
    {
      if qty == One then this.(slots := [None])
      else if slots == [] then this.(slots := seq(MEM_CONTEXT_INITIAL_SIZE, _ => None), freeIdx := 0)
      else
        var i := FirstFree(slots, freeIdx);
        if i == |slots| then this.(slots := slots + seq(|slots|, _ => None), freeIdx := i) else this.(freeIdx := i)
    }

    /** Null the slot of a child that goes away; freeing, unlike moving, also lowers the free index. */
    function Cleared(idx: nat, lower: bool): Context
      requires SlotOf(idx) < |slots|
    {
      this.(slots := slots[SlotOf(idx) := None],
            freeIdx := if lower && qty == Many && idx < freeIdx then idx else freeIdx)
    }
  }

  /** First free slot at or after `from`, or the length of the list. */
  function FirstFree(slots: seq<Option<Id>>, from: nat): (i: nat)
    ensures from <= |slots| ==> from <= i <= |slots|
    ensures i < |slots| ==> slots[i].None?
    ensures forall j | from <= j < i && j < |slots| :: slots[j].Some?
    decreases |slots| - from
  {
    if from >= |slots| then from else if slots[from].None? then from else FirstFree(slots, from + 1)
  }

  /** Distance of each context from the top, with an upper bound: the tree has no cycles. */
  datatype Shape = Shape(level: map<Id, nat>, bound: nat)

  const TOP: Id := 0

  type Contexts = map<Id, Context>

  /** A context's parent link names a slot that holds the context. */
  ghost predicate Linked(h: Contexts, x: Id)
    requires x in h
  {
    && h[x].parent.Some? && h[x].parent.value in h
    && var p := h[h[x].parent.value];
       p.SlotOf(h[x].parentIdx) < |p.slots| && p.slots[p.SlotOf(h[x].parentIdx)] == Some(x)
  }

  /** A used slot holds a live context whose parent link names that slot. */
  ghost predicate Owned(h: Contexts, p: Id, i: nat)
    requires p in h && i < |h[p].slots|
  {
    h[p].slots[i].Some? ==>
      var x := h[p].slots[i].value;
      x in h && x != TOP && h[x].parent == Some(p) && h[p].SlotOf(h[x].parentIdx) == i
  }

  ghost predicate Levelled(h: Contexts, sh: Shape) {
    && (forall x | x in h :: x in sh.level && sh.level[x] <= sh.bound)
    && (forall x | x in h && x != TOP && h[x].parent.Some? && h[x].parent.value in h ::
          sh.level[x] == sh.level[h[x].parent.value] + 1)
  }

  ghost predicate Rooted(h: Contexts) {
    TOP in h && h[TOP].qty == Many && h[TOP].parent == None && forall x | x in h :: h[x].Valid()
  }

  ghost predicate AllLinked(h: Contexts) {
    forall x | x in h && x != TOP :: Linked(h, x)
  }

  ghost predicate AllOwned(h: Contexts) {
    forall p, i | p in h && 0 <= i < |h[p].slots| :: Owned(h, p, i)
  }

  ghost predicate Valid(h: Contexts, sh: Shape) {
    Rooted(h) && AllLinked(h) && AllOwned(h) && Levelled(h, sh)
  }

  /** Every live context but the top sits in a slot, the one that its parent link and index name, and in no other; the top
      sits in none. */
  lemma OneSlot(h: Contexts, sh: Shape, x: Id)
    requires Valid(h, sh) && x in h
    ensures x != TOP ==> Linked(h, x)
    ensures forall p, i | p in h && 0 <= i < |h[p].slots| && h[p].slots[i] == Some(x) ::
              x != TOP && h[x].parent == Some(p) && i == h[p].SlotOf(h[x].parentIdx)
  {
    forall p, i | p in h && 0 <= i < |h[p].slots| && h[p].slots[i] == Some(x)
      ensures x != TOP && h[x].parent == Some(p) && i == h[p].SlotOf(h[x].parentIdx)
    {
      assert Owned(h, p, i);
    }
  }

  /** `c` is `x` or one of its ancestors. */
  ghost predicate Under(h: Contexts, sh: Shape, x: Id, c: Id)
    requires Valid(h, sh) && x in h
    decreases sh.level[x]
  {
    x == c || (x != TOP && (assert Linked(h, x); Under(h, sh, h[x].parent.value, c)))
  }

  ghost function Subtree(h: Contexts, sh: Shape, c: Id): set<Id>
    requires Valid(h, sh)
  {
    set x | x in h && Under(h, sh, x, c)
  }

  // ----- New and move -----

  /** A context can take another child: it is not childless, and a slot for One is free. */
  ghost predicate HasRoom(p: Context) {
    p.qty != Childless && (p.qty == One ==> p.slots == [] || p.slots == [None])
  }

  /** Growing keeps every child in its slot and ends with the free index on an empty slot. */
  lemma GrownFits(p: Context)
    requires p.Valid() && HasRoom(p)
    ensures var g := p.Grown();
            var i := if g.qty == One then 0 else g.freeIdx;
            && g.Valid() && g == p.(slots := g.slots, freeIdx := g.freeIdx)
            && |p.slots| <= |g.slots| && (forall j | 0 <= j < |p.slots| :: g.slots[j] == p.slots[j])
            && (forall j | |p.slots| <= j < |g.slots| :: g.slots[j] == None)
            && i < |g.slots| && g.slots[i] == None
  {
  }

  /** memContextNew(): `cur` is the current context, `id` the address of the new one. */
  ghost function New(h: Contexts, cur: Id, id: Id, qty: Qty, callback: Callback): Contexts
    requires cur in h && h[cur].Valid() && HasRoom(h[cur])
  {
    GrownFits(h[cur]);
    var p := h[cur].Grown();
    var i := if p.qty == One then 0 else p.freeIdx;
    h[cur := p.(slots := p.slots[i := Some(id)], freeIdx := if p.qty == Many then p.freeIdx + 1 else p.freeIdx)]
     [id := Context(qty, [], 0, Some(cur), i, callback, AllocList.EMPTY)]
  }

  /** memContextMove() to a parent other than the present one */
  ghost function Move(h: Contexts, x: Id, dest: Id): Contexts
    requires x in h && Linked(h, x) && dest in h && h[dest].Valid() && HasRoom(h[dest]) && h[x].parent != Some(dest)
  {
    var src := h[x].parent.value;
    GrownFits(h[dest]);
    var p := h[dest].Grown();
    var i := if p.qty == One then 0 else p.freeIdx;
    h[src := h[src].Cleared(h[x].parentIdx, false)]
     [dest := p.(slots := p.slots[i := Some(x)])]
     [x := h[x].(parent := Some(dest), parentIdx := if p.qty == One then h[x].parentIdx else i)]
  }

  /** Shape after a new context or a moved subtree has been put below `p`. */
  ghost function ShapeAfterNew(sh: Shape, p: Id, id: Id): Shape
    requires p in sh.level
  {
    Shape(sh.level[id := sh.level[p] + 1], sh.bound + 1)
  }

  /** `g` is `p` with context `x` in slot `i`, which was empty or did not exist. */
  ghost predicate Hosts(p: Context, g: Context, i: nat, x: Id) {
    && g.Valid() && g == p.(slots := g.slots, freeIdx := g.freeIdx)
    && |p.slots| <= |g.slots| && i < |g.slots| && g.slots[i] == Some(x)
    && (forall j | 0 <= j < |g.slots| && j != i :: g.slots[j] == if j < |p.slots| then p.slots[j] else None)
    && (i < |p.slots| ==> p.slots[i] == None)
  }

  lemma NewHosts(h: Contexts, cur: Id, id: Id, qty: Qty, callback: Callback)
    requires cur in h && h[cur].Valid() && HasRoom(h[cur]) && cur != id
    ensures var r := New(h, cur, id, qty, callback);
            && r == h[cur := r[cur]][id := r[id]]
            && Hosts(h[cur], r[cur], r[cur].SlotOf(r[id].parentIdx), id)
            && r[id] == Context(qty, [], 0, Some(cur), r[id].parentIdx, callback, AllocList.EMPTY)
  {
  }

  /** `r` is `h` with a new context `id` below `cur`. */
  ghost predicate Attached(h: Contexts, r: Contexts, cur: Id, id: Id) {
    && cur in h && id !in h && r.Keys == h.Keys + {id}
    && (forall x | x in h && x != cur :: r[x] == h[x])
    && Hosts(h[cur], r[cur], r[cur].SlotOf(r[id].parentIdx), id)
    && r[id].parent == Some(cur) && r[id].slots == [] && r[id].Valid()
  }

  lemma AttachedLinked(h: Contexts, r: Contexts, cur: Id, id: Id)
    requires AllLinked(h) && Attached(h, r, cur, id)
    ensures AllLinked(r)
  {
  }

  lemma AttachedOwned(h: Contexts, r: Contexts, cur: Id, id: Id)
    requires AllOwned(h) && Attached(h, r, cur, id) && id != TOP
    ensures AllOwned(r)
  {
    forall p, i | p in r && 0 <= i < |r[p].slots| ensures Owned(r, p, i) {
      if p in h && i < |h[p].slots| {
        assert Owned(h, p, i);
      }
    }
  }

  lemma AttachedLevelled(h: Contexts, r: Contexts, sh: Shape, cur: Id, id: Id)
    requires AllLinked(h) && Levelled(h, sh) && Attached(h, r, cur, id)
    ensures Levelled(r, ShapeAfterNew(sh, cur, id))
  {
  }

  lemma NewAttaches(h: Contexts, cur: Id, id: Id, qty: Qty, callback: Callback)
    requires cur in h && id !in h && h[cur].Valid() && HasRoom(h[cur])
    ensures Attached(h, New(h, cur, id, qty, callback), cur, id)
  {
    NewHosts(h, cur, id, qty, callback);
  }

  lemma AttachedRooted(h: Contexts, r: Contexts, cur: Id, id: Id)
    requires Rooted(h) && Attached(h, r, cur, id)
    ensures Rooted(r)
  {
  }

  /** A new context gets a slot of its own and disturbs nobody. */
  lemma NewValid(h: Contexts, sh: Shape, cur: Id, id: Id, qty: Qty, callback: Callback)
    requires Valid(h, sh) && cur in h && id !in h && HasRoom(h[cur])
    ensures cur in sh.level
    ensures Valid(New(h, cur, id, qty, callback), ShapeAfterNew(sh, cur, id))
    ensures Attached(h, New(h, cur, id, qty, callback), cur, id)
  {
    NewAttaches(h, cur, id, qty, callback);
    hide New;
    hide Attached;
    hide AllLinked;
    hide AllOwned;
    var r := New(h, cur, id, qty, callback);
    AttachedRooted(h, r, cur, id);
    AttachedLinked(h, r, cur, id);
    AttachedOwned(h, r, cur, id);
    AttachedLevelled(h, r, sh, cur, id);
  }

  lemma {:induction false} UnderLevel(h: Contexts, sh: Shape, x: Id, c: Id)
    requires Valid(h, sh) && x in h && Under(h, sh, x, c)
    ensures c in h && sh.level[c] <= sh.level[x]
    decreases sh.level[x]
  {
    if x != c {
      assert Linked(h, x);
      UnderLevel(h, sh, h[x].parent.value, c);
    }
  }

  /** `r` is `h` with `x`, formerly a child of `src`, below `dest`. */
  ghost predicate Moved(h: Contexts, r: Contexts, x: Id, src: Id, dest: Id) {
    && src in h && dest in h && x in h && r.Keys == h.Keys && x != src && x != dest && src != dest
    && Linked(h, x) && h[x].parent == Some(src)
    && (forall y | y in h && y != x && y != src && y != dest :: r[y] == h[y])
    && r[src] == h[src].Cleared(h[x].parentIdx, false)
    && Hosts(h[dest], r[dest], r[dest].SlotOf(r[x].parentIdx), x)
    && r[x] == h[x].(parent := Some(dest), parentIdx := r[x].parentIdx)
  }

  lemma MoveMoves(h: Contexts, x: Id, dest: Id)
    requires x in h && Linked(h, x) && dest in h && h[dest].Valid() && HasRoom(h[dest]) && h[x].parent != Some(dest)
    requires x != dest && h[x].parent != Some(x)
    ensures Moved(h, Move(h, x, dest), x, h[x].parent.value, dest)
  {
  }

  lemma MovedRooted(h: Contexts, r: Contexts, x: Id, src: Id, dest: Id)
    requires Rooted(h) && Moved(h, r, x, src, dest) && x != TOP
    ensures Rooted(r)
  {
  }

  lemma MovedLinkedAt(h: Contexts, r: Contexts, x: Id, src: Id, dest: Id, y: Id)
    requires Moved(h, r, x, src, dest) && y in h && Linked(h, y)
    ensures Linked(r, y)
  {
  }

  lemma MovedLinked(h: Contexts, r: Contexts, x: Id, src: Id, dest: Id)
    requires AllLinked(h) && Moved(h, r, x, src, dest)
    ensures AllLinked(r)
  {
    forall y | y in r && y != TOP ensures Linked(r, y) {
      MovedLinkedAt(h, r, x, src, dest, y);
    }
  }

  lemma MovedOwned(h: Contexts, r: Contexts, x: Id, src: Id, dest: Id)
    requires AllOwned(h) && AllLinked(h) && Moved(h, r, x, src, dest) && x != TOP
    ensures AllOwned(r)
  {
    hide Owned;
    hide Moved;
    hide Linked;
    MovedKeys(h, r, x, src, dest);
    forall p, i | p in r && 0 <= i < |r[p].slots| ensures Owned(r, p, i) {
      if i < |h[p].slots| {
        assert Owned(h, p, i);
      }
      MovedOwnedAt(h, r, x, src, dest, p, i);
    }
  }

  lemma MovedKeys(h: Contexts, r: Contexts, x: Id, src: Id, dest: Id)
    requires Moved(h, r, x, src, dest)
    ensures r.Keys == h.Keys
  {
  }

  lemma MovedOwnedAt(h: Contexts, r: Contexts, x: Id, src: Id, dest: Id, p: Id, i: nat)
    requires Moved(h, r, x, src, dest) && x != TOP && p in r && i < |r[p].slots|
    requires i < |h[p].slots| ==> Owned(h, p, i)
    ensures Owned(r, p, i)
  {
  }

  /** Levels after a move: the moved subtree hangs below `dest` as a whole. */
  ghost function ShapeAfterMove(h: Contexts, sh: Shape, x: Id, dest: Id): Shape
    requires Valid(h, sh) && x in h && dest in h
  {
    Shape(map y | y in h :: if Under(h, sh, y, x) then UnderLevel(h, sh, y, x); sh.level[y] - sh.level[x] + sh.level[dest] + 1
                            else sh.level[y],
          2 * sh.bound + 1)
  }

  lemma MovedLevelled(h: Contexts, r: Contexts, sh: Shape, x: Id, src: Id, dest: Id)
    requires Valid(h, sh) && Moved(h, r, x, src, dest) && x != TOP && !Under(h, sh, dest, x)
    ensures Levelled(r, ShapeAfterMove(h, sh, x, dest))
  {
    var sh' := ShapeAfterMove(h, sh, x, dest);
    forall y | y in r && y != TOP && r[y].parent.Some? && r[y].parent.value in r
      ensures sh'.level[y] == sh'.level[r[y].parent.value] + 1
    {
      assert Linked(h, y);
      assert y != x ==> Under(h, sh, y, x) == Under(h, sh, h[y].parent.value, x);
      if Under(h, sh, y, x) && y != x {
        UnderLevel(h, sh, h[y].parent.value, x);
      }
    }
  }

  /** Moving a context under one that is not below it keeps the tree whole. */
  lemma MoveValid(h: Contexts, sh: Shape, x: Id, dest: Id)
    requires Valid(h, sh) && x in h && x != TOP && dest in h && HasRoom(h[dest]) && h[x].parent != Some(dest)
    requires !Under(h, sh, dest, x)
    ensures Linked(h, x) && Moved(h, Move(h, x, dest), x, h[x].parent.value, dest)
    ensures Valid(Move(h, x, dest), ShapeAfterMove(h, sh, x, dest))
  {
    assert Linked(h, x);
    var r := Move(h, x, dest);
    MoveMoves(h, x, dest);
    MovedRooted(h, r, x, h[x].parent.value, dest);
    MovedLinked(h, r, x, h[x].parent.value, dest);
    MovedOwned(h, r, x, h[x].parent.value, dest);
    MovedLevelled(h, r, sh, x, h[x].parent.value, dest);
  }

  // ----- When a list of children doubles -----

  /** A list doubles exactly when it is in use and no slot from the free index on is empty. */
  lemma DoublesExactlyWhen(p: Context)
    requires p.Valid() && p.qty == Many
    ensures p.slots != [] && |p.Grown().slots| == 2 * |p.slots| <==>
            p.slots != [] && forall j | p.freeIdx <= j < |p.slots| :: p.slots[j].Some?
    ensures p.slots != [] && |p.Grown().slots| != 2 * |p.slots| ==> |p.Grown().slots| == |p.slots|
  {
  }

  /** It doubles with room left exactly when, in addition, a slot below the free index is empty. */
  lemma DoublesWithRoomExactlyWhen(p: Context)
    requires p.Valid() && p.qty == Many
    ensures (p.slots != [] && |p.Grown().slots| == 2 * |p.slots| && exists j | 0 <= j < |p.slots| :: p.slots[j].None?) <==>
            (p.slots != [] && (forall j | p.freeIdx <= j < |p.slots| :: p.slots[j].Some?)
             && exists j | 0 <= j < p.freeIdx :: p.slots[j].None?)
  {
    DoublesExactlyWhen(p);
    if p.slots != [] && |p.Grown().slots| == 2 * |p.slots| && exists j | 0 <= j < |p.slots| :: p.slots[j].None? {
      var j :| 0 <= j < |p.slots| && p.slots[j].None?;
      assert j < p.freeIdx;
    }
  }

  // ----- Without moves no slot is forgotten -----

  /** Every slot below the free index is taken. */
  predicate Dense(p: Context) {
    p.qty == Many ==> p.freeIdx <= |p.slots| && forall j | 0 <= j < p.freeIdx :: p.slots[j].Some?
  }

  ghost predicate AllDense(h: Contexts) {
    forall x | x in h :: Dense(h[x])
  }

  /** A list of that kind doubles only when it is full, and otherwise its first empty slot is found. */
  lemma DenseDoublesOnlyWhenFull(p: Context)
    requires p.Valid() && p.qty == Many && Dense(p) && p.slots != []
    ensures |p.Grown().slots| == 2 * |p.slots| <==> forall j | 0 <= j < |p.slots| :: p.slots[j].Some?
    ensures forall j | 0 <= j < p.Grown().freeIdx :: p.Grown().slots[j].Some?
  {
    DoublesExactlyWhen(p);
  }

  /** A new context takes the first empty slot of its parent and keeps all lists dense. */
  lemma NewKeepsDense(h: Contexts, cur: Id, id: Id, qty: Qty, callback: Callback)
    requires cur in h && id !in h && h[cur].Valid() && HasRoom(h[cur]) && AllDense(h)
    ensures var r := New(h, cur, id, qty, callback);
            && AllDense(r)
            && (h[cur].qty == Many ==> forall j | 0 <= j < r[id].parentIdx :: r[cur].slots[j].Some?)
  {
    var r := New(h, cur, id, qty, callback);
    forall x | x in r
      ensures Dense(r[x])
    {
      if x == cur {
        NewKeepsParentDense(h[cur], id);
      }
    }
    if h[cur].qty == Many {
      NewKeepsParentDense(h[cur], id);
    }
  }

  lemma NewKeepsParentDense(p: Context, id: Id)
    requires p.Valid() && HasRoom(p) && Dense(p)
    ensures p.qty == Many ==>
              && p.Grown().freeIdx < |p.Grown().slots|
              && (forall j | 0 <= j < p.Grown().freeIdx :: p.Grown().slots[j].Some?)
              && Dense(p.Grown().(slots := p.Grown().slots[p.Grown().freeIdx := Some(id)], freeIdx := p.Grown().freeIdx + 1))
  {
    GrownFits(p);
  }

  /** Freeing a child keeps the list dense, because the free index is lowered to its slot. */
  lemma ClearedKeepsDense(p: Context, idx: nat)
    requires p.Valid() && Dense(p) && p.SlotOf(idx) < |p.slots|
    ensures Dense(p.Cleared(idx, true))
  {
  }

  const TOP_ONLY: Contexts := map[TOP := Context(Many, [], 0, None, 0, NoCallback, AllocList.EMPTY)]
  const TOP_SHAPE := Shape(map[TOP := 0], 0)

  /** The tree after `n` contexts have been made below the top one. */
  ghost function Children(n: nat): (r: (Contexts, Shape))
    ensures Valid(r.0, r.1) && (forall x: Id :: x in r.0 <==> x <= n) && r.0[TOP].qty == Many
    ensures forall x | 1 <= x <= n :: r.0[x] == Context(Many, [], 0, Some(TOP), r.0[x].parentIdx, NoCallback, AllocList.EMPTY)
  {
    if n == 0 then (TOP_ONLY, TOP_SHAPE)
    else
      var (h, sh) := Children(n - 1);
      NewValid(h, sh, TOP, n, Many, NoCallback);
      (New(h, TOP, n, Many, NoCallback), ShapeAfterNew(sh, TOP, n))
  }

  /** The next child takes the slot at the free index. */
  lemma OneMoreChild(n: nat, slots: seq<Option<Id>>)
    requires Children(n).0[TOP].freeIdx == n < |slots| == 4 && slots[n] == None
    requires Children(n).0[TOP].slots == if n == 0 then [] else slots
    requires n == 0 ==> slots == [None, None, None, None]
    ensures Children(n + 1).0[TOP].slots == slots[n := Some(n + 1)] && Children(n + 1).0[TOP].freeIdx == n + 1
  {
    var (h, sh) := Children(n);
    hide Valid;
    assert h[TOP].Grown().slots == slots && h[TOP].Grown().freeIdx == n;
    assert Children(n + 1).0 == New(h, TOP, n + 1, Many, NoCallback);
  }

  lemma FourChildren()
    ensures Children(4).0[TOP].slots == [Some(1), Some(2), Some(3), Some(4)] && Children(4).0[TOP].freeIdx == 4
  {
    hide Valid;
    OneMoreChild(0, [None, None, None, None]);
    hide Children;
    OneMoreChild(1, [Some(1), None, None, None]);
    OneMoreChild(2, [Some(1), Some(2), None, None]);
    OneMoreChild(3, [Some(1), Some(2), Some(3), None]);
  }

  /** The second of four new contexts moved below the first. */
  ghost function AfterMove(): Contexts {
    FourChildren();
    assert Linked(Children(4).0, 2);
    Move(Children(4).0, 2, 1)
  }

  lemma AfterMoveTop()
    ensures TOP in AfterMove() && AfterMove()[TOP].qty == Many && AfterMove()[TOP].freeIdx == 4
    ensures AfterMove()[TOP].slots == [Some(1), None, Some(3), Some(4)]
  {
    FourChildren();
    var h := Children(4).0;
    hide Children;
    assert Linked(h, 2);
    hide Valid;
    assert AfterMove()[TOP] == h[TOP].Cleared(1, false);
  }

  /** Such lists arise: moving does not lower the free index, so after four new contexts and a move of the second below the
      first, a fifth new context doubles the list although the second slot is empty. */
  lemma MoveForgetsSlot()
    ensures TOP in AfterMove() && AfterMove()[TOP].Valid() && HasRoom(AfterMove()[TOP])
    ensures var r := New(AfterMove(), TOP, 5, Many, NoCallback);
            |r[TOP].slots| == 8 && r[TOP].slots[1] == None && r[TOP].slots[4] == Some(5)
  {
    hide AfterMove;
    AfterMoveTop();
    var p := AfterMove()[TOP];
    DoublesExactlyWhen(p);
    assert p.Grown().freeIdx == 4;
  }
}
