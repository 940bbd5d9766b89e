/** The heap of pkg/overlay/apply.go: decoded JSON as Go values whose maps and slices are references, what it means
    that such a value is a tree, which cells a tree owns, and what rewriting one node of it does to the tree and to
    the references that a match has captured. */
module OverlayHeap {
  import opened OverlayTree

  type Address = nat

  /** A Go `any` holding decoded JSON: maps and slices are references. */
  datatype Value = Plain(scalar: Scalar) | Ref(address: Address)

  datatype Cell = Object(entries: map<string, Value>) | Slice(elements: seq<Value>)

  type Heap = map<Address, Cell>

  predicate CellHas(c: Cell, s: Step) {
    match s
    case Key(name) => c.Object? && name in c.entries
    case At(index) => c.Slice? && index < |c.elements|
  }

  function Kid(c: Cell, s: Step): Value
    requires CellHas(c, s)
  {
    match s
    case Key(name) => c.entries[name]
    case At(index) => c.elements[index]
  }

  /** The cell has the kind and the steps of the tree node. */
  ghost predicate SameShape(c: Cell, t: Json) {
    c.Object? == t.Obj? && c.Slice? == t.Arr? && forall s :: CellHas(c, s) <==> Has(t, s)
  }

  /** `a` is one of the cells that make up the tree `t` at `v`. */
  ghost predicate Owns(h: Heap, v: Value, t: Json, a: Address)
    ensures Owns(h, v, t, a) ==> a in h
    decreases t
  {
    && v.Ref? && v.address in h && SameShape(h[v.address], t)
    && (a == v.address
        || exists s :: Has(t, s) && Owns(h, Kid(h[v.address], s), Child(t, s), a))
  }

  /** `v` is the tree `t`, and no cell of it is reached twice. */
  ghost predicate Tree(h: Heap, v: Value, t: Json)
    decreases t
  {
    match v
    case Plain(scalar) => t == Leaf(scalar)
    case Ref(a) =>
      && a in h && SameShape(h[a], t)
      && (forall s | Has(t, s) :: Tree(h, Kid(h[a], s), Child(t, s)) && !Owns(h, Kid(h[a], s), Child(t, s), a))
      && (forall s, s', x | Has(t, s) && Has(t, s') && s != s' && Owns(h, Kid(h[a], s), Child(t, s), x) ::
            !Owns(h, Kid(h[a], s'), Child(t, s'), x))
  }

  /** `v` reads as the tree `t`; cells may be shared. */
  ghost predicate Denotes(h: Heap, v: Value, t: Json)
    decreases t
  {
    match v
    case Plain(scalar) => t == Leaf(scalar)
    case Ref(a) =>
      a in h && SameShape(h[a], t) && forall s | Has(t, s) :: Denotes(h, Kid(h[a], s), Child(t, s))
  }

  lemma {:induction false} TreeDenotes(h: Heap, v: Value, t: Json)
    requires Tree(h, v, t)
    ensures Denotes(h, v, t)
    decreases t
  {
    if v.Ref? {
      forall s | Has(t, s)
        ensures Denotes(h, Kid(h[v.address], s), Child(t, s))
      {
        TreeDenotes(h, Kid(h[v.address], s), Child(t, s));
      }
    }
  }

  /** Trees depend only on the cells they own. */
  lemma {:induction false} Frame(h: Heap, h': Heap, v: Value, t: Json)
    requires Tree(h, v, t)
    requires forall x | Owns(h, v, t, x) :: x in h' && h'[x] == h[x]
    ensures Tree(h', v, t)
    ensures forall x :: Owns(h', v, t, x) <==> Owns(h, v, t, x)
    decreases t
  {
    if v.Ref? {
      var a := v.address;
      assert Owns(h, v, t, a);
      forall s | Has(t, s)
        ensures Tree(h', Kid(h[a], s), Child(t, s))
        ensures forall x :: Owns(h', Kid(h[a], s), Child(t, s), x) <==> Owns(h, Kid(h[a], s), Child(t, s), x)
      {
        forall x | Owns(h, Kid(h[a], s), Child(t, s), x)
          ensures x in h' && h'[x] == h[x]
        {
          assert Owns(h, v, t, x);
        }
        Frame(h, h', Kid(h[a], s), Child(t, s));
      }
    }
  }

  /** Where a path leads in the heap. */
  ghost function Locate(h: Heap, v: Value, t: Json, p: Path): Value
    requires Tree(h, v, t) && HasPath(t, p)
    decreases |p|
  {
    if p == [] then v
    else
      var s := p[0];
      Locate(h, Kid(h[v.address], s), Child(t, s), p[1..])
  }

  lemma {:induction false} SubTree(h: Heap, v: Value, t: Json, p: Path)
    requires Tree(h, v, t) && HasPath(t, p)
    ensures Tree(h, Locate(h, v, t, p), Get(t, p))
    ensures forall x | Owns(h, Locate(h, v, t, p), Get(t, p), x) :: Owns(h, v, t, x)
    decreases |p|
  {
    if p != [] {
      SubTree(h, Kid(h[v.address], p[0]), Child(t, p[0]), p[1..]);
    }
  }

  lemma {:induction false} LocateExtend(h: Heap, v: Value, t: Json, p: Path, s: Step)
    requires Tree(h, v, t) && HasPath(t, p) && Has(Get(t, p), s) && HasPath(t, p + [s])
    ensures Locate(h, v, t, p).Ref? && Locate(h, v, t, p).address in h
    ensures CellHas(h[Locate(h, v, t, p).address], s)
    ensures Locate(h, v, t, p + [s]) == Kid(h[Locate(h, v, t, p).address], s)
    decreases |p|
  {
    if p != [] {
      assert (p + [s])[0] == p[0] && (p + [s])[1..] == p[1..] + [s];
      LocateExtend(h, Kid(h[v.address], p[0]), Child(t, p[0]), p[1..], s);
    }
  }

  /** The cells of a tree outside the subtree at `p`. */
  ghost predicate OwnsOutside(h: Heap, v: Value, t: Json, p: Path, x: Address)
    requires Tree(h, v, t) && HasPath(t, p)
  {
    Owns(h, v, t, x) && !Owns(h, Locate(h, v, t, p), Get(t, p), x)
  }

  /** Rebuilding the subtree at `p` behind the same value, leaving every other cell of the tree alone, puts the
      new subtree at `p`. */
  lemma {:induction false} ReplaceSub(h: Heap, h': Heap, v: Value, t: Json, p: Path, sub: Json)
    requires Tree(h, v, t) && HasPath(t, p)
    requires Tree(h', Locate(h, v, t, p), sub)
    requires forall x | OwnsOutside(h, v, t, p, x) ::
               x in h' && h'[x] == h[x] && !Owns(h', Locate(h, v, t, p), sub, x)
    ensures Tree(h', v, Put(t, p, sub))
    ensures forall x :: Owns(h', v, Put(t, p, sub), x) <==>
                          OwnsOutside(h, v, t, p, x) || Owns(h', Locate(h, v, t, p), sub, x)
    decreases |p|
  {
    if p == [] {
    } else {
      var a, s := v.address, p[0];
      var kid, child := Kid(h[a], s), Child(t, s);
      var rest := p[1..];
      SubTree(h, kid, child, rest);
      assert !Owns(h, Locate(h, v, t, p), Get(t, p), a);
      assert OwnsOutside(h, v, t, p, a);
      forall x | OwnsOutside(h, kid, child, rest, x)
        ensures OwnsOutside(h, v, t, p, x)
      {
      }
      ReplaceSub(h, h', kid, child, rest, sub);
      ReplaceKid(h, h', v, t, s, Put(child, rest, sub));
    }
  }

  /** One step of the above: the kid at `s` keeps its value and now holds another tree. */
  lemma ReplaceKid(h: Heap, h': Heap, v: Value, t: Json, s: Step, child': Json)
    requires Tree(h, v, t) && Has(t, s)
    requires Tree(h', Kid(h[v.address], s), child')
    requires forall x | Owns(h, v, t, x) && !Owns(h, Kid(h[v.address], s), Child(t, s), x) ::
               x in h' && h'[x] == h[x] && !Owns(h', Kid(h[v.address], s), child', x)
    ensures Tree(h', v, WithChild(t, s, child'))
    ensures forall x :: Owns(h', v, WithChild(t, s, child'), x) <==>
                          || (Owns(h, v, t, x) && !Owns(h, Kid(h[v.address], s), Child(t, s), x))
                          || Owns(h', Kid(h[v.address], s), child', x)
  {
    assert h'[v.address] == h[v.address];
    assert forall x | OwnedBeside(h, v, t, s, x) :: Owns(h, v, t, x) && !Owns(h, Kid(h[v.address], s), Child(t, s), x);
    RebuildNode(h, h', v, t, WithChild(t, s, child'), s);
  }

  /** `x` belongs to a kid other than the one at `s`. */
  ghost predicate OwnedBeside(h: Heap, v: Value, t: Json, s: Step, x: Address)
    requires v.Ref? && Tree(h, v, t)
  {
    exists s' :: Has(t, s') && s' != s && Owns(h, Kid(h[v.address], s'), Child(t, s'), x)
  }

  /** Kids other than the one at `s` stay as they are when their cells do. */
  lemma KidsBesideStay(h: Heap, h': Heap, v: Value, t: Json, s: Step)
    requires v.Ref? && Tree(h, v, t)
    requires forall x | OwnedBeside(h, v, t, s, x) :: x in h' && h'[x] == h[x]
    ensures forall s' | Has(t, s') && s' != s :: Tree(h', Kid(h[v.address], s'), Child(t, s'))
    ensures forall s', x | Has(t, s') && s' != s ::
              Owns(h', Kid(h[v.address], s'), Child(t, s'), x) <==> Owns(h, Kid(h[v.address], s'), Child(t, s'), x)
  {
    var a := v.address;
    forall s' | Has(t, s') && s' != s
      ensures Tree(h', Kid(h[a], s'), Child(t, s'))
      ensures forall x :: Owns(h', Kid(h[a], s'), Child(t, s'), x) <==> Owns(h, Kid(h[a], s'), Child(t, s'), x)
    {
      assert forall x | Owns(h, Kid(h[a], s'), Child(t, s'), x) :: OwnedBeside(h, v, t, s, x);
      Frame(h, h', Kid(h[a], s'), Child(t, s'));
    }
  }

  /** The kids of the new node beside `s` are the old ones. */
  ghost predicate SameBeside(c: Cell, t: Json, c': Cell, t': Json, s: Step)
    requires SameShape(c, t) && SameShape(c', t')
  {
    forall s' | s' != s ::
      Has(t', s') == Has(t, s') && (Has(t, s') ==> Kid(c', s') == Kid(c, s') && Child(t', s') == Child(t, s'))
  }

  /** A node of `h'` whose kids are those of a tree of `h` except at `s`, and what stands at `s` is a tree apart. */
  ghost predicate Rebuilt(h: Heap, h': Heap, v: Value, t: Json, t': Json, s: Step) {
    && v.Ref? && Tree(h, v, t)
    && v.address in h' && SameShape(h'[v.address], t')
    && SameBeside(h[v.address], t, h'[v.address], t', s)
    && (forall x | OwnedBeside(h, v, t, s, x) :: x in h' && h'[x] == h[x])
    && (Has(t', s) ==>
          && Tree(h', Kid(h'[v.address], s), Child(t', s))
          && forall x | Owns(h', Kid(h'[v.address], s), Child(t', s), x) ::
               x != v.address && !OwnedBeside(h, v, t, s, x))
  }

  /** Such a node is a tree. */
  lemma RebuildNode(h: Heap, h': Heap, v: Value, t: Json, t': Json, s: Step)
    requires Rebuilt(h, h', v, t, t', s)
    ensures Tree(h', v, t')
    ensures forall x :: Owns(h', v, t', x) <==>
                          || x == v.address || OwnedBeside(h, v, t, s, x)
                          || (Has(t', s) && Owns(h', Kid(h'[v.address], s), Child(t', s), x))
  {
    var a := v.address;
    KidsBesideStay(h, h', v, t, s);
    forall s' | Has(t', s')
      ensures Tree(h', Kid(h'[a], s'), Child(t', s')) && !Owns(h', Kid(h'[a], s'), Child(t', s'), a)
    {
    }
    forall s1, s2, x | Has(t', s1) && Has(t', s2) && s1 != s2 && Owns(h', Kid(h'[a], s1), Child(t', s1), x)
      ensures !Owns(h', Kid(h'[a], s2), Child(t', s2), x)
    {
    }
    RebuildOwns(h, h', v, t, t', s);
  }

  lemma RebuildOwns(h: Heap, h': Heap, v: Value, t: Json, t': Json, s: Step)
    requires Rebuilt(h, h', v, t, t', s)
    ensures forall x :: Owns(h', v, t', x) <==>
                          || x == v.address || OwnedBeside(h, v, t, s, x)
                          || (Has(t', s) && Owns(h', Kid(h'[v.address], s), Child(t', s), x))
  {
    hide Tree;
    KidsBesideStay(h, h', v, t, s);
  }

  lemma {:induction false} FrameLocate(h: Heap, h': Heap, v: Value, t: Json, q: Path)
    requires Tree(h, v, t) && Tree(h', v, t) && HasPath(t, q)
    requires forall x | Owns(h, v, t, x) :: x in h' && h'[x] == h[x]
    ensures Locate(h', v, t, q) == Locate(h, v, t, q)
    decreases |q|
  {
    if q != [] {
      var a, s := v.address, q[0];
      assert Owns(h, v, t, a);
      forall x | Owns(h, Kid(h[a], s), Child(t, s), x)
        ensures x in h' && h'[x] == h[x]
      {
        assert Owns(h, v, t, x);
      }
      FrameLocate(h, h', Kid(h[a], s), Child(t, s), q[1..]);
    }
  }

  /** A cell reached by a path not below `c` is outside the subtree at `c`. */
  lemma {:induction false} LocatedOutside(h: Heap, v: Value, t: Json, c: Path, r: Path)
    requires Tree(h, v, t) && HasPath(t, c) && HasPath(t, r) && !(c <= r)
    requires Locate(h, v, t, r).Ref?
    ensures OwnsOutside(h, v, t, c, Locate(h, v, t, r).address)
    decreases |c|
  {
    var a, s := v.address, c[0];
    SubTree(h, v, t, r);
    SubTree(h, Kid(h[a], s), Child(t, s), c[1..]);
    if r != [] {
      SubTree(h, Kid(h[a], r[0]), Child(t, r[0]), r[1..]);
      if r[0] == s {
        LocatedOutside(h, Kid(h[a], s), Child(t, s), c[1..], r[1..]);
      }
    }
  }

  /** Cells of the tree that are not below step `s` of the node at `p`. */
  ghost predicate OwnsApartFrom(h: Heap, v: Value, t: Json, p: Path, s: Step, x: Address)
    requires Tree(h, v, t) && HasPath(t, p) && Locate(h, v, t, p).Ref?
  {
    SubTree(h, v, t, p);
    var node := Locate(h, v, t, p);
    Owns(h, v, t, x) && !(Has(Get(t, p), s) && Owns(h, Kid(h[node.address], s), Child(Get(t, p), s), x))
  }

  /** From `h` to `h'` only the node at `p` is rewritten, only at step `s`, and what stands there now shares no
      cell with the rest of the tree. */
  ghost predicate Edited(h: Heap, h': Heap, v: Value, t: Json, p: Path, s: Step, node': Json) {
    && Tree(h, v, t) && HasPath(t, p) && Locate(h, v, t, p).Ref?
    && var a := Locate(h, v, t, p).address;
    && a in h && a in h' && SameShape(h[a], Get(t, p)) && SameShape(h'[a], node')
    && SameBeside(h[a], Get(t, p), h'[a], node', s)
    && (forall x | x in h && x != a :: x in h' && h'[x] == h[x])
    && (Has(node', s) ==>
          && Tree(h', Kid(h'[a], s), Child(node', s))
          && forall x | Owns(h', Kid(h'[a], s), Child(node', s), x) :: !OwnsApartFrom(h, v, t, p, s, x))
  }

  lemma EditNode(h: Heap, h': Heap, v: Value, t: Json, p: Path, s: Step, node': Json)
    requires Edited(h, h', v, t, p, s, node')
    ensures Tree(h', v, Put(t, p, node'))
    ensures forall x | Owns(h', v, Put(t, p, node'), x) ::
              || OwnsApartFrom(h, v, t, p, s, x)
              || (Has(node', s) && Owns(h', Kid(h'[Locate(h, v, t, p).address], s), Child(node', s), x))
  {
    var u, node := Locate(h, v, t, p), Get(t, p);
    var a := u.address;
    SubTree(h, v, t, p);
    assert Owns(h, u, node, a);
    assert OwnsApartFrom(h, v, t, p, s, a);
    forall x | OwnedBeside(h, u, node, s, x)
      ensures x in h' && h'[x] == h[x] && OwnsApartFrom(h, v, t, p, s, x)
    {
    }
    RebuildNode(h, h', u, node, node', s);
    forall x | OwnsOutside(h, v, t, p, x)
      ensures x in h' && h'[x] == h[x] && !Owns(h', u, node', x) && OwnsApartFrom(h, v, t, p, s, x)
    {
      assert Has(node, s) && Owns(h, Kid(h[a], s), Child(node, s), x) ==> Owns(h, u, node, x);
    }
    ReplaceSub(h, h', v, t, p, node');
  }

  lemma EditedBelow(h: Heap, h': Heap, v: Value, t: Json, p: Path, s: Step, node': Json)
    requires Edited(h, h', v, t, p, s, node') && p != []
    ensures Edited(h, h', Kid(h[v.address], p[0]), Child(t, p[0]), p[1..], s, node')
    ensures v.address in h' && h'[v.address] == h[v.address]
  {
    var kid, child := Kid(h[v.address], p[0]), Child(t, p[0]);
    SubTree(h, kid, child, p[1..]);
    forall x | OwnsApartFrom(h, kid, child, p[1..], s, x)
      ensures OwnsApartFrom(h, v, t, p, s, x)
    {
    }
  }

  /** Everything not reached through the rewritten step stays where it was. */
  lemma {:induction false} LocateStable(h: Heap, h': Heap, v: Value, t: Json, p: Path, s: Step, node': Json, q: Path)
    requires Edited(h, h', v, t, p, s, node') && HasPath(t, q) && !(p + [s] <= q)
    ensures Tree(h', v, Put(t, p, node')) && HasPath(Put(t, p, node'), q)
    ensures Locate(h', v, Put(t, p, node'), q) == Locate(h, v, t, q)
    decreases |p|
  {
    EditNode(h, h', v, t, p, s, node');
    if q != [] {
      var a, u := v.address, Locate(h, v, t, p);
      var kid, child := Kid(h[a], q[0]), Child(t, q[0]);
      if p != [] && p[0] == q[0] {
        EditedBelow(h, h', v, t, p, s, node');
        assert p[1..] + [s] == (p + [s])[1..];
        LocateStable(h, h', kid, child, p[1..], s, node', q[1..]);
      } else {
        KidUnedited(h, h', v, t, p, s, node', q[0]);
        FrameLocate(h, h', kid, child, q[1..]);
      }
    }
  }

  /** A kid of the root that the rewritten step does not lie under. */
  lemma KidUnedited(h: Heap, h': Heap, v: Value, t: Json, p: Path, s: Step, node': Json, k: Step)
    requires Edited(h, h', v, t, p, s, node') && Has(t, k)
    requires if p == [] then k != s else k != p[0]
    ensures Tree(h', Kid(h[v.address], k), Child(t, k))
    ensures forall x | Owns(h, Kid(h[v.address], k), Child(t, k), x) :: x in h' && h'[x] == h[x]
    ensures Has(Put(t, p, node'), k) && Child(Put(t, p, node'), k) == Child(t, k)
    ensures v.address in h' && CellHas(h'[v.address], k) && Kid(h'[v.address], k) == Kid(h[v.address], k)
  {
    var a, u := v.address, Locate(h, v, t, p).address;
    if p != [] {
      EditedBelow(h, h', v, t, p, s, node');
      SubTree(h, Kid(h[a], p[0]), Child(t, p[0]), p[1..]);
      SubTree(h, v, t, p);
      assert Owns(h, Kid(h[a], p[0]), Child(t, p[0]), u);
    }
    Frame(h, h', Kid(h[a], k), Child(t, k));
  }

  // ---------------------------------------------------------------------------------------------------------

  /** What the `set` and `remove` closures of a match captured. */
  datatype Slot =
    | NoSlot
    | FieldSlot(holder: Address, name: string)
    | ElementSlot(slice: Address, index: nat, parent: Slot)

  datatype NodeRef = NodeRef(value: Value, slot: Slot)

  /** The slot that a match at `p` captures. */
  ghost function SlotAt(h: Heap, v: Value, t: Json, p: Path): Slot
    requires Tree(h, v, t) && HasPath(t, p)
    decreases |p|
  {
    if p == [] then NoSlot
    else
      PathPrefix(t, p, |p| - 1);
      PathExtend(t, p[..|p| - 1], p[|p| - 1]);
      assert p[..|p| - 1] + [p[|p| - 1]] == p;
      SubTree(h, v, t, p[..|p| - 1]);
      var container := Locate(h, v, t, p[..|p| - 1]).address;
      match p[|p| - 1]
      case Key(name) => FieldSlot(container, name)
      case At(index) => ElementSlot(container, index, SlotAt(h, v, t, p[..|p| - 1]))
  }

  ghost predicate IsNode(h: Heap, v: Value, t: Json, p: Path, node: NodeRef) {
    Tree(h, v, t) && HasPath(t, p) && node == NodeRef(Locate(h, v, t, p), SlotAt(h, v, t, p))
  }

  ghost predicate IsNodes(h: Heap, v: Value, t: Json, paths: seq<Path>, nodes: seq<NodeRef>) {
    |nodes| == |paths| && forall i | 0 <= i < |paths| :: IsNode(h, v, t, paths[i], nodes[i])
  }

  /** Slots depend on where the containers above a path are. */
  lemma {:induction false} SlotStable(h: Heap, h': Heap, v: Value, t: Json, t': Json, p: Path)
    requires Tree(h, v, t) && Tree(h', v, t') && HasPath(t, p) && HasPath(t', p)
    requires forall n | 0 <= n < |p| ::
               && HasPath(t, p[..n]) && HasPath(t', p[..n])
               && Locate(h, v, t, p[..n]) == Locate(h', v, t', p[..n])
    ensures SlotAt(h', v, t', p) == SlotAt(h, v, t, p)
    decreases |p|
  {
    if p != [] {
      var c := p[..|p| - 1];
      assert forall n | 0 <= n < |c| :: c[..n] == p[..n];
      assert HasPath(t, c) && HasPath(t', c);
      SlotStable(h, h', v, t, t', c);
    }
  }

  lemma NodeStable(h: Heap, h': Heap, v: Value, t: Json, p: Path, s: Step, node': Json, q: Path, node: NodeRef)
    requires Edited(h, h', v, t, p, s, node') && IsNode(h, v, t, q, node) && !(p + [s] <= q)
    ensures IsNode(h', v, Put(t, p, node'), q, node)
  {
    LocateStable(h, h', v, t, p, s, node', q);
    forall n | 0 <= n < |q|
      ensures HasPath(t, q[..n]) && HasPath(Put(t, p, node'), q[..n])
      ensures Locate(h, v, t, q[..n]) == Locate(h', v, Put(t, p, node'), q[..n])
    {
      PathPrefix(t, q, n);
      assert !(p + [s] <= q[..n]);
      LocateStable(h, h', v, t, p, s, node', q[..n]);
    }
    SlotStable(h, h', v, t, Put(t, p, node'), q);
  }
}
