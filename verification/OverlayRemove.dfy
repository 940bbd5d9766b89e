/** The `set` and `remove` closures of pkg/overlay/apply.go: what each call does to the heap and to the tree. A closure
    works on the container it captured when the match was found, which by then need not be the one in the tree; what
    keeps that harmless is stated as `Pending`, and kept by every call for all the calls still to come. */
module OverlayRemove {
  import opened OverlayTree
  import opened OverlayHeap

  function WithKid(c: Cell, s: Step, v: Value): Cell
    requires CellHas(c, s)
  {
    match s
    case Key(name) => Object(c.entries[name := v])
    case At(index) => Slice(c.elements[index := v])
  }

  /** A cell and a node with another kid at one step. */
  lemma WithKidBeside(c: Cell, t: Json, s: Step, v: Value, child: Json)
    requires SameShape(c, t) && Has(t, s)
    ensures CellHas(c, s) && SameShape(WithKid(c, s, v), WithChild(t, s, child))
    ensures SameBeside(c, t, WithKid(c, s, v), WithChild(t, s, child), s)
    ensures Has(WithChild(t, s, child), s) && Child(WithChild(t, s, child), s) == child
    ensures CellHas(WithKid(c, s, v), s) && Kid(WithKid(c, s, v), s) == v
  {
  }

  /** The containers that a slot writes to are there and have the right kind. */
  predicate Fits(h: Heap, slot: Slot) {
    match slot
    case NoSlot => true
    case FieldSlot(holder, name) => holder in h && h[holder].Object?
    case ElementSlot(slice, index, parent) =>
      slice in h && h[slice].Slice? && index < |h[slice].elements| && Fits(h, parent)
  }

  /** The `set` closure of a match: writing an element also stores the slice again in the slot it came from. */
  function SetThrough(h: Heap, slot: Slot, v: Value): Heap
    requires Fits(h, slot)
  {
    match slot
    case NoSlot => h
    case FieldSlot(holder, name) => h[holder := Object(h[holder].entries[name := v])]
    case ElementSlot(slice, index, parent) =>
      var h' := h[slice := Slice(h[slice].elements[index := v])];
      FitsStays(h, slice, index, v, parent);
      SetThrough(h', parent, Ref(slice))
  }

  lemma {:induction false} FitsStays(h: Heap, slice: Address, index: nat, v: Value, slot: Slot)
    requires slice in h && h[slice].Slice? && index < |h[slice].elements| && Fits(h, slot)
    ensures Fits(h[slice := Slice(h[slice].elements[index := v])], slot)
    decreases slot
  {
    if slot.ElementSlot? {
      FitsStays(h, slice, index, v, slot.parent);
    }
  }

  /** Storing in a slot what it already holds changes nothing, all the way up. */
  lemma {:induction false} SetAgain(h: Heap, h': Heap, root: Value, t: Json, r: Path)
    requires Tree(h, root, t) && HasPath(t, r)
    requires forall m | 0 <= m < |r| :: HasPath(t, r[..m]) && Locate(h, root, t, r[..m]).Ref?
    requires forall m | 0 <= m < |r| :: var b := Locate(h, root, t, r[..m]).address; b in h && b in h' && h'[b] == h[b]
    ensures Fits(h', SlotAt(h, root, t, r))
    ensures SetThrough(h', SlotAt(h, root, t, r), Locate(h, root, t, r)) == h'
    decreases |r|
  {
    if r != [] {
      hide SlotAt, Tree, Locate, HasPath;
      var q, s := r[..|r| - 1], r[|r| - 1];
      assert q + [s] == r && r[..|q|] == q;
      assert forall m | 0 <= m < |q| :: q[..m] == r[..m];
      SetAgain(h, h', root, t, q);
      SlotOfLast(h, root, t, q, s);
      var b := Locate(h, root, t, q).address;
      StoreSame(h', b, s, Kid(h'[b], s));
    }
  }

  /** What the slot of a match is made of. */
  lemma SlotOfLast(h: Heap, root: Value, t: Json, q: Path, s: Step)
    requires Tree(h, root, t) && HasPath(t, q) && HasPath(t, q + [s])
    ensures Locate(h, root, t, q).Ref? && Locate(h, root, t, q).address in h
    ensures var b := Locate(h, root, t, q).address;
      && CellHas(h[b], s) && Locate(h, root, t, q + [s]) == Kid(h[b], s)
      && SlotAt(h, root, t, q + [s]) ==
           match s
           case Key(name) => FieldSlot(b, name)
           case At(index) => ElementSlot(b, index, SlotAt(h, root, t, q))
  {
    PathExtend(t, q, s);
    LocateExtend(h, root, t, q, s);
    assert (q + [s])[..|q|] == q;
  }

  lemma StoreSame(h: Heap, b: Address, s: Step, v: Value)
    requires b in h && CellHas(h[b], s) && Kid(h[b], s) == v
    ensures WithKid(h[b], s, v) == h[b] && h[b := h[b]] == h
  {
    match s
    case Key(name) => assert h[b].entries[name := v] == h[b].entries;
    case At(index) => assert h[b].elements[index := v] == h[b].elements;
  }

  /** Setting the slot of a match rewrites one kid of its container and nothing else. */
  lemma SetSlotWritesKid(h: Heap, h': Heap, root: Value, t: Json, r: Path, s: Step, w: Value)
    requires Tree(h, root, t) && HasPath(t, r) && Has(Get(t, r), s) && HasPath(t, r + [s])
    requires forall x | x in h :: x in h' && h'[x] == h[x]
    ensures Locate(h, root, t, r).Ref? && Locate(h, root, t, r).address in h
    ensures CellHas(h[Locate(h, root, t, r).address], s)
    ensures Fits(h', SlotAt(h, root, t, r + [s]))
    ensures var b := Locate(h, root, t, r).address;
            SetThrough(h', SlotAt(h, root, t, r + [s]), w) == h'[b := WithKid(h'[b], s, w)]
  {
    LocateExtend(h, root, t, r, s);
    var b := Locate(h, root, t, r).address;
    assert (r + [s])[..|r|] == r;
    if s.At? {
      forall m | 0 <= m < |r|
        ensures HasPath(t, r[..m]) && Locate(h, root, t, r[..m]).Ref?
        ensures var c := Locate(h, root, t, r[..m]).address; c in h && c != b
      {
        AncestorApart(h, root, t, r, m);
      }
      var h1 := h'[b := WithKid(h'[b], s, w)];
      SetAgain(h, h', root, t, r);
      SetAgain(h, h1, root, t, r);
    }
  }

  lemma AncestorApart(h: Heap, root: Value, t: Json, r: Path, m: nat)
    requires Tree(h, root, t) && HasPath(t, r) && m < |r| && Locate(h, root, t, r).Ref?
    ensures HasPath(t, r[..m]) && Locate(h, root, t, r[..m]).Ref?
    ensures Locate(h, root, t, r[..m]).address in h
    ensures Locate(h, root, t, r[..m]).address != Locate(h, root, t, r).address
  {
    PathPrefix(t, r, m);
    PathPrefix(t, r, m + 1);
    assert r[..m + 1] == r[..m] + [r[m]];
    PathExtend(t, r[..m], r[m]);
    LocateExtend(h, root, t, r[..m], r[m]);
    LocatedOutside(h, root, t, r, r[..m]);
    SubTree(h, root, t, r);
    assert Owns(h, Locate(h, root, t, r), Get(t, r), Locate(h, root, t, r).address);
  }

  // ---- Closures as functions of the heap --------------------------------------------------------------------

  /** A `remove` closure can be called. */
  predicate Callable(h: Heap, slot: Slot) {
    Fits(h, slot) && !slot.NoSlot?
  }

  lemma {:induction false} FitsGrown(h: Heap, a: Address, c: Cell, slot: Slot)
    requires a !in h && Fits(h, slot)
    ensures Fits(h[a := c], slot)
    decreases slot
  {
    if slot.ElementSlot? {
      FitsGrown(h, a, c, slot.parent);
    }
  }

  /** The `remove` closure of a match; `a` is the address of the shortened copy of an array. */
  function Closure(h: Heap, slot: Slot, a: Address): Heap
    requires Callable(h, slot) && a !in h
  {
    match slot
    case FieldSlot(holder, name) => h[holder := Object(h[holder].entries - {name})]
    case ElementSlot(slice, index, parent) =>
      var shortened := Slice(DropValue(h[slice].elements, index));
      FitsGrown(h, a, shortened, parent);
      SetThrough(h[a := shortened], parent, Ref(a))
  }

  function DropValue(elements: seq<Value>, index: nat): seq<Value>
    requires index < |elements|
  {
    elements[..index] + elements[index + 1..]
  }

  /** `h'` is `h` with another value in one field. */
  predicate Differ(h: Heap, h': Heap, holder: Address, name: string, v: Value) {
    holder in h && h[holder].Object? && h' == h[holder := Object(h[holder].entries[name := v])]
  }

  /** Storing through the slot goes through arrays up to this field. */
  predicate EndsAt(slot: Slot, holder: Address, name: string) {
    match slot
    case NoSlot => false
    case FieldSlot(a, k) => a == holder && k == name
    case ElementSlot(_, _, parent) => EndsAt(parent, holder, name)
  }

  /** Storing through a slot in two heaps that differ in one field: they agree afterwards if the slot ends at that
      field, and differ there as before if it does not. */
  lemma {:induction false} SetThroughDiffer(
    h: Heap, h': Heap, slot: Slot, v: Value, holder: Address, name: string, w: Value)
    requires Differ(h, h', holder, name, w) && Fits(h, slot)
    ensures Fits(h', slot)
    ensures if EndsAt(slot, holder, name) then SetThrough(h', slot, v) == SetThrough(h, slot, v)
            else Differ(SetThrough(h, slot, v), SetThrough(h', slot, v), holder, name, w)
    decreases slot
  {
    match slot
    case NoSlot =>
    case FieldSlot(a, k) =>
      if a == holder && k != name {
        var entries := h[holder].entries;
        assert entries[name := w][k := v] == entries[k := v][name := w];
      } else if a == holder {
        assert h[holder].entries[name := w][name := v] == h[holder].entries[name := v];
      }
    case ElementSlot(slice, index, parent) =>
      var h1 := h[slice := Slice(h[slice].elements[index := v])];
      var h2 := h'[slice := Slice(h'[slice].elements[index := v])];
      FitsStays(h, slice, index, v, parent);
      assert Differ(h1, h2, holder, name, w);
      SetThroughDiffer(h1, h2, parent, Ref(slice), holder, name, w);
      FitsDiffer(h, h', parent, holder, name, w);
  }

  lemma {:induction false} FitsDiffer(h: Heap, h': Heap, slot: Slot, holder: Address, name: string, w: Value)
    requires Differ(h, h', holder, name, w) && Fits(h, slot)
    ensures Fits(h', slot)
    decreases slot
  {
    if slot.ElementSlot? {
      FitsDiffer(h, h', slot.parent, holder, name, w);
    }
  }

  /** The removed match is an element whose array is stored again up to this field. */
  predicate StoresUpTo(slot: Slot, holder: Address, name: string) {
    slot.ElementSlot? && EndsAt(slot.parent, holder, name)
  }

  /** The same `remove` closure called in two heaps that differ in one field. */
  lemma ClosureDiffer(h: Heap, h': Heap, slot: Slot, a: Address, holder: Address, name: string, w: Value)
    requires Differ(h, h', holder, name, w) && Callable(h, slot) && a !in h && slot != FieldSlot(holder, name)
    ensures Callable(h', slot) && a !in h'
    ensures if StoresUpTo(slot, holder, name) then Closure(h', slot, a) == Closure(h, slot, a)
            else Differ(Closure(h, slot, a), Closure(h', slot, a), holder, name, w)
  {
    FitsDiffer(h, h', slot, holder, name, w);
    match slot
    case FieldSlot(b, k) =>
      if b == holder {
        assert h[holder].entries[name := w] - {k} == (h[holder].entries - {k})[name := w];
      }
    case ElementSlot(slice, index, parent) =>
      var shortened := Slice(DropValue(h[slice].elements, index));
      FitsGrown(h, a, shortened, parent);
      SetThroughDiffer(h[a := shortened], h'[a := shortened], parent, Ref(a), holder, name, w);
  }

  function Init(p: Path): Path
    requires p != []
  {
    p[..|p| - 1]
  }

  function Last(p: Path): Step
    requires p != []
  {
    p[|p| - 1]
  }

  /** A match still to be removed, `h0` and `t0` being heap and tree when the remove loop began: its container is
      where it was, or, for an element, whatever leads to the container is, the old array can still be read, and
      the old array is not reached from anywhere else. */
  ghost predicate Pending(h0: Heap, h: Heap, root: Value, t0: Json, t: Json, p: Path) {
    && Tree(h0, root, t0) && Tree(h, root, t)
    && p != [] && HasPath(t0, p) && HasPath(t0, Init(p)) && HasPath(t, Init(p))
    && (Last(p).Key? ==>
          Get(t, Init(p)).Obj? && Locate(h, root, t, Init(p)) == Locate(h0, root, t0, Init(p)))
    && (Last(p).At? ==> Init(p) != [] && WayKept(h0, h, root, t0, t, Init(p)) && OldKept(h0, h, root, t0, t, Init(p)))
  }

  ghost predicate WayKept(h0: Heap, h: Heap, root: Value, t0: Json, t: Json, c: Path)
    requires Tree(h0, root, t0) && Tree(h, root, t)
  {
    forall m | 0 <= m < |c| ::
      HasPath(t0, c[..m]) && HasPath(t, c[..m]) && Locate(h, root, t, c[..m]) == Locate(h0, root, t0, c[..m])
  }

  ghost predicate OldKept(h0: Heap, h: Heap, root: Value, t0: Json, t: Json, c: Path)
    requires Tree(h0, root, t0) && Tree(h, root, t) && HasPath(t0, c) && HasPath(t, c)
  {
    forall x | Owns(h0, Locate(h0, root, t0, c), Get(t0, c), x) ::
      x in h && h[x] == h0[x] && !OwnsOutside(h, root, t, c, x)
  }

  lemma PendingStarts(h: Heap, root: Value, t: Json, p: Path)
    requires Tree(h, root, t) && t.Obj? && p != [] && HasPath(t, p)
    ensures Pending(h, h, root, t, t, p)
  {
    PathPrefix(t, p, |p| - 1);
    assert Init(p) + [Last(p)] == p;
    PathExtend(t, Init(p), Last(p));
    forall m | 0 <= m < |Init(p)|
      ensures HasPath(t, Init(p)[..m])
    {
      PathPrefix(t, Init(p), m);
    }
    SubTree(h, root, t, Init(p));
  }

  // ---- Fields -----------------------------------------------------------------------------------------------

  /** Deleting a field is an edit of its object. */
  lemma DeleteIsEdit(h0: Heap, h: Heap, h': Heap, root: Value, t0: Json, t: Json, p: Path)
    requires Pending(h0, h, root, t0, t, p) && Last(p).Key?
    requires Locate(h, root, t, Init(p)).Ref?
    requires var a := Locate(h, root, t, Init(p)).address;
             a in h && h[a].Object? && h' == h[a := Object(h[a].entries - {Last(p).name})]
    ensures Edited(h, h', root, t, Init(p), Last(p), Obj(Get(t, Init(p)).fields - {Last(p).name}))
  {
    SubTree(h, root, t, Init(p));
    var a, node := Locate(h, root, t, Init(p)).address, Get(t, Init(p));
    var node' := Obj(node.fields - {Last(p).name});
    assert SameShape(h[a], node);
    assert forall s :: Has(node', s) <==> Has(node, s) && s != Last(p);
    assert forall s :: CellHas(h'[a], s) <==> CellHas(h[a], s) && s != Last(p);
  }

  lemma DeleteKeepsPending(h0: Heap, h: Heap, h': Heap, root: Value, t0: Json, t: Json, p: Path, q: Path)
    requires Pending(h0, h, root, t0, t, p) && Last(p).Key?
    requires Edited(h, h', root, t, Init(p), Last(p), Obj(Get(t, Init(p)).fields - {Last(p).name}))
    requires Pending(h0, h, root, t0, t, q) && Last(q).Key? && |q| == |p|
    ensures Pending(h0, h', root, t0, Put(t, Init(p), Obj(Get(t, Init(p)).fields - {Last(p).name})), q)
  {
    var node' := Obj(Get(t, Init(p)).fields - {Last(p).name});
    var t' := Put(t, Init(p), node');
    EditNode(h, h', root, t, Init(p), Last(p), node');
    LocateStable(h, h', root, t, Init(p), Last(p), node', Init(q));
    SubTree(h, root, t, Init(q));
    SubTree(h', root, t', Init(q));
  }

  // ---- Elements ---------------------------------------------------------------------------------------------

  /** Where the item at `s` was before the one at `index` was dropped. */
  function Before(s: Step, index: nat): Step {
    if s.At? && s.index >= index then At(s.index + 1) else s
  }

  lemma DroppedAt(elements: seq<Value>, items: seq<Json>, index: nat, s: Step)
    requires |elements| == |items| && index < |items| && Has(Arr(DropAt(items, index)), s)
    ensures var o := Before(s, index);
            && Has(Arr(items), o) && CellHas(Slice(elements), o) && CellHas(Slice(DropValue(elements, index)), s)
            && Kid(Slice(DropValue(elements, index)), s) == Kid(Slice(elements), o)
            && Child(Arr(DropAt(items, index)), s) == Child(Arr(items), o)
  {
  }

  /** An item that stays, seen through the new slice. */
  lemma DroppedKid(h: Heap, h1: Heap, snap: Value, items: seq<Json>, index: nat, a: Address, s: Step)
    requires Tree(h, snap, Arr(items)) && snap.Ref? && index < |items|
    requires snap.address in h && h[snap.address].Slice? && |h[snap.address].elements| == |items|
    requires forall x | Owns(h, snap, Arr(items), x) :: x in h1 && h1[x] == h[x]
    requires a in h1 && h1[a] == Slice(DropValue(h[snap.address].elements, index))
    requires Has(Arr(DropAt(items, index)), s)
    ensures var o := Before(s, index);
            && Has(Arr(items), o) && CellHas(h[snap.address], o) && CellHas(h1[a], s)
            && Kid(h1[a], s) == Kid(h[snap.address], o) && Child(Arr(DropAt(items, index)), s) == Child(Arr(items), o)
            && Tree(h1, Kid(h1[a], s), Child(Arr(DropAt(items, index)), s))
            && forall x :: Owns(h1, Kid(h1[a], s), Child(Arr(DropAt(items, index)), s), x) <==>
                             Owns(h, Kid(h[snap.address], o), Child(Arr(items), o), x)
  {
    DroppedAt(h[snap.address].elements, items, index, s);
    hide DropValue, DropAt, Before;
    var o := Before(s, index);
    assert forall x | Owns(h, Kid(h[snap.address], o), Child(Arr(items), o), x) :: Owns(h, snap, Arr(items), x);
    Frame(h, h1, Kid(h[snap.address], o), Child(Arr(items), o));
  }

  /** A new slice with one element left out is the array without that item. */
  lemma DroppedTree(h: Heap, h1: Heap, snap: Value, items: seq<Json>, index: nat, a: Address)
    requires Tree(h, snap, Arr(items)) && snap.Ref? && index < |items|
    requires snap.address in h && h[snap.address].Slice? && index < |h[snap.address].elements|
    requires forall x | Owns(h, snap, Arr(items), x) :: x in h1 && h1[x] == h[x] && x != a
    requires a in h1 && h1[a] == Slice(DropValue(h[snap.address].elements, index))
    ensures Tree(h1, Ref(a), Arr(DropAt(items, index)))
    ensures forall x | Owns(h1, Ref(a), Arr(DropAt(items, index)), x) :: x == a || Owns(h, snap, Arr(items), x)
  {
    var elements, t := h[snap.address].elements, Arr(items);
    var t' := Arr(DropAt(items, index));
    assert |elements| == |items| by {
      assert !Has(t, At(|items|)) && !CellHas(h[snap.address], At(|elements|));
    }
    hide Before, DropValue, DropAt;
    forall s | Has(t', s)
      ensures var o := Before(s, index);
              && Has(t, o) && CellHas(h[snap.address], o) && CellHas(h1[a], s)
              && Kid(h1[a], s) == Kid(h[snap.address], o) && Child(t', s) == Child(t, o)
              && Tree(h1, Kid(h1[a], s), Child(t', s))
              && forall x :: Owns(h1, Kid(h1[a], s), Child(t', s), x) <==>
                             Owns(h, Kid(h[snap.address], o), Child(t, o), x)
    {
      DroppedKid(h, h1, snap, items, index, a, s);
    }
    SameLength(elements, items, index);
    BeforeIsOneToOne(index);
  }

  lemma SameLength(elements: seq<Value>, items: seq<Json>, index: nat)
    requires |elements| == |items| && index < |items|
    ensures |DropValue(elements, index)| == |DropAt(items, index)|
  {
  }

  lemma BeforeIsOneToOne(index: nat)
    ensures forall s, s' | Before(s, index) == Before(s', index) :: s == s'
  {
  }

  /** The heap after a `remove` closure of an element has stored the shortened copy at the new address `a`. */
  ghost predicate Dropped(h0: Heap, h: Heap, h': Heap, root: Value, t0: Json, t: Json, p: Path, a: Address) {
    && Pending(h0, h, root, t0, t, p) && Last(p).At? && a !in h
    && var c := Init(p);
    && var r := Init(c);
    && HasPath(t, r) && Locate(h, root, t, r).Ref?
    && var snap, b := Locate(h0, root, t0, c), Locate(h, root, t, r).address;
    && b in h && CellHas(h[b], Last(c))
    && snap.Ref? && snap.address in h0 && h0[snap.address].Slice? && Last(p).index < |h0[snap.address].elements|
    && h' == h[a := Slice(DropValue(h0[snap.address].elements, Last(p).index))][b := WithKid(h[b], Last(c), Ref(a))]
  }

  /** The array that a removal puts in place. */
  ghost function Shortened(t0: Json, p: Path): Json
    requires p != [] && Last(p).At? && HasPath(t0, p)
  {
    Arr(DropAt(Element(t0, p), Last(p).index))
  }

  lemma ContainerOf(t: Json, c: Path)
    requires HasPath(t, c) && c != []
    ensures HasPath(t, Init(c)) && Has(Get(t, Init(c)), Last(c)) && Get(t, c) == Child(Get(t, Init(c)), Last(c))
    ensures Init(c) + [Last(c)] == c
  {
    PathPrefix(t, c, |c| - 1);
    assert Init(c) + [Last(c)] == c;
    PathExtend(t, Init(c), Last(c));
  }

  /** The array being replaced, and the new one, in a heap where the new one has been made. */
  lemma DropMakesTree(h0: Heap, h: Heap, h': Heap, root: Value, t0: Json, t: Json, p: Path, a: Address)
    requires Dropped(h0, h, h', root, t0, t, p, a)
    ensures Tree(h', Ref(a), Shortened(t0, p))
    ensures forall x | Owns(h', Ref(a), Shortened(t0, p), x) ::
              x == a || Owns(h0, Locate(h0, root, t0, Init(p)), Get(t0, Init(p)), x)
  {
    var c := Init(p);
    var snap, b := Locate(h0, root, t0, c), Locate(h, root, t, Init(c)).address;
    ContainerOf(t0, p);
    SubTree(h0, root, t0, c);
    LocatedOutside(h, root, t, c, Init(c));
    forall x | Owns(h0, snap, Get(t0, c), x)
      ensures x in h' && h'[x] == h0[x] && x != a
    {
      assert x in h && h[x] == h0[x] && !OwnsOutside(h, root, t, c, x);
    }
    DroppedTree(h0, h', snap, Get(t0, c).items, Last(p).index, a);
  }

  /** Storing a new tree at a step, where the tree shares no cell with what is beside it, is an edit there. */
  lemma StoreIsEdit(h: Heap, h': Heap, root: Value, t: Json, r: Path, s: Step, b: Address, a: Address, sub: Json)
    requires Tree(h, root, t) && HasPath(t, r) && Has(Get(t, r), s) && HasPath(t, r + [s])
    requires Locate(h, root, t, r) == Ref(b) && b in h && CellHas(h[b], s) && a !in h
    requires a in h' && b in h' && h'[b] == WithKid(h[b], s, Ref(a))
    requires forall x | x in h && x != b :: x in h' && h'[x] == h[x]
    requires Tree(h', Ref(a), sub)
    requires forall x | Owns(h', Ref(a), sub, x) :: x == a || !OwnsOutside(h, root, t, r + [s], x)
    ensures Edited(h, h', root, t, r, s, WithChild(Get(t, r), s, sub))
  {
    hide WithKid, WithChild;
    LocateExtend(h, root, t, r, s);
    SubTree(h, root, t, r);
    assert SameShape(h[b], Get(t, r));
    WithKidBeside(h[b], Get(t, r), s, Ref(a), sub);
    PathExtend(t, r, s);
    forall x | Owns(h', Ref(a), sub, x)
      ensures !OwnsApartFrom(h, root, t, r, s, x)
    {
      if x == a {
        assert !Owns(h, root, t, x);
      }
    }
  }

  lemma DropIsEdit(h0: Heap, h: Heap, h': Heap, root: Value, t0: Json, t: Json, p: Path, a: Address)
    requires Dropped(h0, h, h', root, t0, t, p, a)
    ensures var r, s := Init(Init(p)), Last(Init(p));
            && HasPath(t, r) && Has(Get(t, r), s)
            && Edited(h, h', root, t, r, s, WithChild(Get(t, r), s, Shortened(t0, p)))
            && Put(t, Init(p), Shortened(t0, p)) == Put(t, r, WithChild(Get(t, r), s, Shortened(t0, p)))
  {
    hide Edited, WithKid, WithChild, DropValue, Shortened;
    var c := Init(p);
    var r, s := Init(c), Last(c);
    ContainerOf(t, c);
    DropMakesTree(h0, h, h', root, t0, t, p, a);
    PutExtend(t, r, s, Shortened(t0, p));
    forall x | Owns(h', Ref(a), Shortened(t0, p), x)
      ensures x == a || !OwnsOutside(h, root, t, c, x)
    {
    }
    StoreIsEdit(h, h', root, t, r, s, Locate(h, root, t, r).address, a, Shortened(t0, p));
  }

  lemma {:induction false} DisjointSubtrees(h: Heap, v: Value, t: Json, c: Path, d: Path, x: Address)
    requires Tree(h, v, t) && HasPath(t, c) && HasPath(t, d) && Unrelated(c, d)
    requires Owns(h, Locate(h, v, t, c), Get(t, c), x)
    ensures !Owns(h, Locate(h, v, t, d), Get(t, d), x)
    decreases |c|
  {
    var kidC, kidD := Kid(h[v.address], c[0]), Kid(h[v.address], d[0]);
    SubTree(h, kidC, Child(t, c[0]), c[1..]);
    SubTree(h, kidD, Child(t, d[0]), d[1..]);
    if c[0] == d[0] {
      DisjointSubtrees(h, kidC, Child(t, c[0]), c[1..], d[1..], x);
    }
  }

  /** No reference stands at two places of a tree: an update that stores one map or slice at two matches leaves
      something that is not a tree any more. */
  lemma NoSharedReference(h: Heap, v: Value, t: Json, c: Path, d: Path)
    requires Tree(h, v, t) && HasPath(t, c) && HasPath(t, d) && Unrelated(c, d)
    requires Locate(h, v, t, c) == Locate(h, v, t, d)
    ensures Locate(h, v, t, c).Plain?
  {
    SubTree(h, v, t, c);
    SubTree(h, v, t, d);
    var shared := Locate(h, v, t, c);
    if shared.Ref? {
      assert Owns(h, shared, Get(t, c), shared.address) && Owns(h, shared, Get(t, d), shared.address);
      DisjointSubtrees(h, v, t, c, d, shared.address);
      assert false;
    }
  }

  lemma DropKeepsWay(h0: Heap, h: Heap, h': Heap, root: Value, t0: Json, t: Json, p: Path, a: Address, d: Path)
    requires Dropped(h0, h, h', root, t0, t, p, a) && |d| == |Init(p)| && WayKept(h0, h, root, t0, t, d)
    ensures Tree(h', root, Put(t, Init(p), Shortened(t0, p)))
    ensures WayKept(h0, h', root, t0, Put(t, Init(p), Shortened(t0, p)), d)
  {
    DropIsEdit(h0, h, h', root, t0, t, p, a);
    var r, s := Init(Init(p)), Last(Init(p));
    var node' := WithChild(Get(t, r), s, Shortened(t0, p));
    EditNode(h, h', root, t, r, s, node');
    forall m | 0 <= m < |d|
      ensures HasPath(Put(t, r, node'), d[..m])
      ensures Locate(h', root, Put(t, r, node'), d[..m]) == Locate(h, root, t, d[..m])
    {
      assert !(r + [s] <= d[..m]);
      LocateStable(h, h', root, t, r, s, node', d[..m]);
    }
  }

  /** Dropping an element leaves the subtree at a container of the same depth. */
  lemma DropLeavesSubtree(h0: Heap, h: Heap, h': Heap, root: Value, t0: Json, t: Json, p: Path, a: Address, d: Path)
    requires Dropped(h0, h, h', root, t0, t, p, a) && Unrelated(Init(p), d) && |d| == |Init(p)| && HasPath(t, d)
    ensures var t' := Put(t, Init(p), Shortened(t0, p));
            && Tree(h', root, t') && HasPath(t', d) && Get(t', d) == Get(t, d)
            && Locate(h', root, t', d) == Locate(h, root, t, d)
            && forall x | Owns(h, Locate(h, root, t, d), Get(t, d), x) ::
                 Owns(h', Locate(h', root, t', d), Get(t', d), x)
  {
    DropIsEdit(h0, h, h', root, t0, t, p, a);
    var r, s := Init(Init(p)), Last(Init(p));
    var node' := WithChild(Get(t, r), s, Shortened(t0, p));
    ContainerOf(t, Init(p));
    LocateStable(h, h', root, t, r, s, node', d);
    PutGetOther(t, Init(p), Shortened(t0, p), d);
    LocatedOutside(h, root, t, d, r);
    SubTree(h, root, t, d);
    Frame(h, h', Locate(h, root, t, d), Get(t, d));
  }

  /** Cells that pending matches still read are neither rewritten nor newly reached. */
  lemma DropKeepsOld(h0: Heap, h: Heap, h': Heap, root: Value, t0: Json, t: Json, p: Path, a: Address, d: Path)
    requires Dropped(h0, h, h', root, t0, t, p, a) && Unrelated(Init(p), d) && |d| == |Init(p)|
    requires HasPath(t0, d) && HasPath(t, d) && OldKept(h0, h, root, t0, t, d)
    ensures var t' := Put(t, Init(p), Shortened(t0, p));
            Tree(h', root, t') && HasPath(t', d) && OldKept(h0, h', root, t0, t', d)
  {
    var c, t' := Init(p), Put(t, Init(p), Shortened(t0, p));
    DropLeavesSubtree(h0, h, h', root, t0, t, p, a, d);
    LocatedOutside(h, root, t, d, Init(c));
    forall x | Owns(h0, Locate(h0, root, t0, d), Get(t0, d), x)
      ensures x in h' && h'[x] == h0[x] && !OwnsOutside(h', root, t', d, x)
    {
      assert x in h && h[x] == h0[x] && !OwnsOutside(h, root, t, d, x);
      if Owns(h', root, t', x) {
        DropReaches(h0, h, h', root, t0, t, p, a, x);
        if Owns(h0, Locate(h0, root, t0, c), Get(t0, c), x) {
          DisjointSubtrees(h0, root, t0, c, d, x);
        }
      }
    }
  }

  /** What the tree reaches after a drop: what it did, the new slice, and the items of the old array. */
  lemma DropReaches(h0: Heap, h: Heap, h': Heap, root: Value, t0: Json, t: Json, p: Path, a: Address, x: Address)
    requires Dropped(h0, h, h', root, t0, t, p, a)
    ensures Tree(h', root, Put(t, Init(p), Shortened(t0, p)))
    ensures Owns(h', root, Put(t, Init(p), Shortened(t0, p)), x) ==>
              || Owns(h, root, t, x) || x == a
              || Owns(h0, Locate(h0, root, t0, Init(p)), Get(t0, Init(p)), x)
  {
    DropIsEdit(h0, h, h', root, t0, t, p, a);
    DropMakesTree(h0, h, h', root, t0, t, p, a);
    var r, s := Init(Init(p)), Last(Init(p));
    EditNode(h, h', root, t, r, s, WithChild(Get(t, r), s, Shortened(t0, p)));
  }

  lemma DropKeepsOldHere(h0: Heap, h: Heap, h': Heap, root: Value, t0: Json, t: Json, p: Path, a: Address)
    requires Dropped(h0, h, h', root, t0, t, p, a)
    ensures var t' := Put(t, Init(p), Shortened(t0, p));
            Tree(h', root, t') && HasPath(t', Init(p)) && OldKept(h0, h', root, t0, t', Init(p))
  {
    DropIsEdit(h0, h, h', root, t0, t, p, a);
    var c := Init(p);
    var r, s := Init(c), Last(c);
    var node', t' := WithChild(Get(t, r), s, Shortened(t0, p)), Put(t, c, Shortened(t0, p));
    EditNode(h, h', root, t, r, s, node');
    PutGet(t, c, Shortened(t0, p), Shortened(t0, p));
    ContainerOf(t, c);
    ContainerOf(t', c);
    LocateExtend(h, root, t, r, s);
    LocatedOutside(h, root, t, c, r);
    assert !(r + [s] <= r);
    LocateStable(h, h', root, t, r, s, node', r);
    LocateExtend(h', root, t', r, s);
    forall x | Owns(h0, Locate(h0, root, t0, c), Get(t0, c), x)
      ensures x in h' && h'[x] == h0[x] && !OwnsOutside(h', root, t', c, x)
    {
      assert x in h && h[x] == h0[x] && !OwnsOutside(h, root, t, c, x);
    }
  }

  lemma DropKeepsPending(h0: Heap, h: Heap, h': Heap, root: Value, t0: Json, t: Json, p: Path, a: Address, q: Path)
    requires Dropped(h0, h, h', root, t0, t, p, a)
    requires Pending(h0, h, root, t0, t, q) && Last(q).At? && |q| == |p|
    ensures Pending(h0, h', root, t0, Put(t, Init(p), Shortened(t0, p)), q)
  {
    DropKeepsWay(h0, h, h', root, t0, t, p, a, Init(q));
    if Init(q) == Init(p) {
      DropKeepsOldHere(h0, h, h', root, t0, t, p, a);
    } else {
      DropKeepsOld(h0, h, h', root, t0, t, p, a, Init(q));
    }
  }

  // ---- Removing after a copy has replaced containers --------------------------------------------------------

  /** Two places of a tree with the same reference are one place. */
  lemma OnePlace(h: Heap, v: Value, t: Json, p: Path, q: Path)
    requires Tree(h, v, t) && HasPath(t, p) && HasPath(t, q)
    requires Locate(h, v, t, p).Ref? && Locate(h, v, t, p) == Locate(h, v, t, q)
    ensures p == q
  {
    var a := Locate(h, v, t, p).address;
    SubTree(h, v, t, p);
    SubTree(h, v, t, q);
    assert Owns(h, Locate(h, v, t, p), Get(t, p), a) && Owns(h, Locate(h, v, t, q), Get(t, q), a);
    if !(p <= q) {
      LocatedOutside(h, v, t, p, q);
    } else if !(q <= p) {
      LocatedOutside(h, v, t, q, p);
    }
  }

  lemma ThroughOneMore(dest: Path, c: Path, s: Step)
    requires dest != [] && Last(dest).Key?
    ensures ThroughArrays(dest, c + [s]) <==> if s.At? then ThroughArrays(dest, c) else dest == c + [s]
  {
    var p := c + [s];
    assert p[..|c|] == c && p[|c|] == s;
    if ThroughArrays(dest, p) {
      if s.At? {
        assert |dest| <= |c|;
        assert forall i | |dest| <= i < |c| :: c[i] == p[i];
      }
    }
    if s.At? && ThroughArrays(dest, c) {
      assert forall i | |dest| <= i < |c| :: p[i] == c[i];
    }
  }

  /** Storing through the slot of a place goes up to the field at `dest` exactly when only arrays are in between. */
  lemma {:induction false} EndsAtIff(h: Heap, root: Value, t: Json, p: Path, dest: Path, holder: Address, name: string)
    requires Tree(h, root, t) && HasPath(t, p)
    requires dest != [] && Last(dest) == Key(name) && HasPath(t, Init(dest))
    requires Locate(h, root, t, Init(dest)) == Ref(holder)
    ensures EndsAt(SlotAt(h, root, t, p), holder, name) <==> ThroughArrays(dest, p)
    decreases |p|
  {
    if p != [] {
      hide Tree, Locate, HasPath, Has, Get, ThroughArrays, SlotAt;
      var c, s := Init(p), Last(p);
      ContainerOf(t, p);
      SlotOfLast(h, root, t, c, s);
      ThroughOneMore(dest, c, s);
      if s.At? {
        EndsAtIff(h, root, t, c, dest, holder, name);
      } else {
        EndsAtField(h, root, t, c, s.name, dest, holder, name);
      }
    } else {
      assert !(dest <= p);
    }
  }

  /** A field is the one at `dest` exactly when its place is. */
  lemma EndsAtField(h: Heap, root: Value, t: Json, c: Path, k: string, dest: Path, holder: Address, name: string)
    requires Tree(h, root, t) && HasPath(t, c) && Locate(h, root, t, c).Ref?
    requires dest != [] && Last(dest) == Key(name) && HasPath(t, Init(dest))
    requires Locate(h, root, t, Init(dest)) == Ref(holder)
    ensures Locate(h, root, t, c).address == holder && k == name <==> dest == c + [Key(k)]
  {
    hide Tree, Locate, HasPath;
    assert dest == Init(dest) + [Key(name)];
    if Locate(h, root, t, c) == Ref(holder) {
      OnePlace(h, root, t, c, Init(dest));
    }
  }

  /** Removing a match below the destination stores up to the destination exactly when it restores what was there. */
  lemma StoresUpToIff(h: Heap, root: Value, t: Json, p: Path, dest: Path, holder: Address, name: string)
    requires Tree(h, root, t) && HasPath(t, p) && |dest| < |p|
    requires dest != [] && Last(dest) == Key(name) && HasPath(t, Init(dest))
    requires Locate(h, root, t, Init(dest)) == Ref(holder)
    ensures StoresUpTo(SlotAt(h, root, t, p), holder, name) <==> Restores(dest, p)
    ensures SlotAt(h, root, t, p) != FieldSlot(holder, name)
  {
    hide Tree, Locate, HasPath, Has, Get, ThroughArrays;
    var c, s := Init(p), Last(p);
    ContainerOf(t, p);
    SlotOfLast(h, root, t, c, s);
    EndsAtIff(h, root, t, c, dest, holder, name);
    EndsAtIff(h, root, t, p, dest, holder, name);
    ThroughOneMore(dest, c, s);
  }

  /** What is fewer than `n` steps from the root is where it was. */
  ghost predicate HighKept(h0: Heap, h: Heap, root: Value, t0: Json, t: Json, n: int) {
    && Tree(h0, root, t0) && Tree(h, root, t)
    && forall q | HasPath(t0, q) && |q| < n :: HasPath(t, q) && Locate(h, root, t, q) == Locate(h0, root, t0, q)
  }

  lemma EditKeepsHigh(h0: Heap, h: Heap, h': Heap, root: Value, t0: Json, t: Json, p: Path, s: Step, node': Json,
                      n: int)
    requires HighKept(h0, h, root, t0, t, n) && Edited(h, h', root, t, p, s, node') && n <= |p| + 1
    ensures Tree(h', root, Put(t, p, node')) && HighKept(h0, h', root, t0, Put(t, p, node'), n)
  {
    hide Tree, Owns, Locate, HasPath, Get, Put;
    EditNode(h, h', root, t, p, s, node');
    forall q | HasPath(t0, q) && |q| < n
      ensures HasPath(Put(t, p, node'), q) && Locate(h', root, Put(t, p, node'), q) == Locate(h0, root, t0, q)
    {
      LocateStable(h, h', root, t, p, s, node', q);
    }
  }
}
