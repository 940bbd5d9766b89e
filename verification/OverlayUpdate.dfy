/** The update loops of pkg/overlay/apply.go, as functions of the heap: what they leave in the tree, and what the
    result reads as even where one object or array has been assigned to several matches, so that the copy is
    a tree no more and a later assignment may show at several places. */
module OverlayUpdate {
  import opened Wrappers
  import opened OverlayTree
  import opened OverlayHeap
  import opened OverlayRemove
  import opened OverlayEffects

  // ---- Cells that are not to be touched ---------------------------------------------------------------------

  ghost predicate Untouched(h: Heap, h': Heap, reserved: set<Address>) {
    forall x | x in reserved && x in h :: x in h' && h'[x] == h[x]
  }

  /** Reserved cells are as they were, and still not reached from the tree. */
  ghost predicate ReservedKept(h: Heap, h': Heap, root: Value, t: Json, reserved: set<Address>) {
    forall x | x in reserved :: x in h && x in h' && h'[x] == h[x] && !Owns(h', root, t, x)
  }

  lemma ReservedKeptOn(h0: Heap, h: Heap, h': Heap, root: Value, t: Json, t': Json, reserved: set<Address>)
    requires ReservedKept(h0, h, root, t, reserved) && ReservedKept(h, h', root, t', reserved)
    ensures ReservedKept(h0, h', root, t', reserved)
  {
  }

  /** Between `h0` and `h` the tree became `t`, the captured matches still stand at their paths, and the reserved
      cells were left alone. */
  ghost predicate MatchesHeld(h0: Heap, h: Heap, root: Value, t: Json, paths: seq<Path>, nodes: seq<NodeRef>,
                              reserved: set<Address>)
  {
    Tree(h, root, t) && IsNodes(h, root, t, paths, nodes) && ReservedKept(h0, h, root, t, reserved)
  }

  lemma MatchesHeldStep(h0: Heap, h: Heap, h': Heap, root: Value, t: Json, t': Json, paths: seq<Path>,
                        nodes: seq<NodeRef>, i: nat, reserved: set<Address>)
    requires MatchesHeld(h0, h, root, t, paths, nodes, reserved) && AllUnrelated(paths) && i < |paths|
    requires Tree(h', root, t') && ReservedKept(h, h', root, t', reserved)
    requires StableNodes(h, h', root, t, t', paths[i])
    ensures MatchesHeld(h0, h', root, t', paths, nodes, reserved) && Untouched(h0, h', reserved)
  {
    forall j | 0 <= j < |paths|
      ensures IsNode(h', root, t', paths[j], nodes[j])
    {
      assert IsNode(h, root, t, paths[j], nodes[j]);
      assert j != i ==> Unrelated(paths[i], paths[j]);
    }
  }

  // ---- One assignment ---------------------------------------------------------------------------------------

  /** The effect of one assignment `object[k] = w` at `p`. */
  ghost predicate KeySet(h: Heap, h': Heap, root: Value, t: Json, p: Path, k: string, w: Value, tw: Json,
                         reserved: set<Address>)
  {
    && HasPath(t, p) && Get(t, p).Obj?
    && var t' := Put(t, p, WithChild(Get(t, p), Key(k), tw));
    && Tree(h', root, t') && ReservedKept(h, h', root, t', reserved)
    && (forall x | Owns(h', root, t', x) :: Owns(h, root, t, x) || Owns(h, w, tw, x))
    && (forall q, n | IsNode(h, root, t, q, n) && !(p + [Key(k)] <= q) :: IsNode(h', root, t', q, n))
  }

  /** Matches that are not below `p` are where they were. */
  ghost predicate StableNodes(h: Heap, h': Heap, root: Value, t: Json, t': Json, p: Path) {
    forall q, n | IsNode(h, root, t, q, n) && !(p < q) :: IsNode(h', root, t', q, n)
  }

  lemma WriteIsEdit(h: Heap, h': Heap, root: Value, t: Json, p: Path, node: NodeRef, k: string, w: Value, tw: Json)
    requires Tree(h, root, t) && HasPath(t, p) && Get(t, p).Obj?
    requires node.value == Locate(h, root, t, p) && node.value.Ref?
    requires node.value.address in h && h[node.value.address].Object?
    requires Tree(h, w, tw) && forall x | Owns(h, w, tw, x) :: !Owns(h, root, t, x)
    requires h' == h[node.value.address := Object(h[node.value.address].entries[k := w])]
    ensures Edited(h, h', root, t, p, Key(k), WithChild(Get(t, p), Key(k), tw))
    ensures forall x :: Owns(h', w, tw, x) <==> Owns(h, w, tw, x)
  {
    var a := node.value.address;
    SubTree(h, root, t, p);
    assert Owns(h, node.value, Get(t, p), a);
    Frame(h, h', w, tw);
  }

  lemma KeySetFollows(h: Heap, h': Heap, root: Value, t: Json, p: Path, k: string, w: Value, tw: Json,
                      reserved: set<Address>)
    requires HasPath(t, p) && Get(t, p).Obj?
    requires Edited(h, h', root, t, p, Key(k), WithChild(Get(t, p), Key(k), tw))
    requires Kid(h'[Locate(h, root, t, p).address], Key(k)) == w
    requires forall x :: Owns(h', w, tw, x) <==> Owns(h, w, tw, x)
    requires forall x | Owns(h, w, tw, x) :: x !in reserved
    requires forall x | x in reserved :: x in h && !Owns(h, root, t, x)
    ensures KeySet(h, h', root, t, p, k, w, tw, reserved)
  {
    var node' := WithChild(Get(t, p), Key(k), tw);
    EditNode(h, h', root, t, p, Key(k), node');
    SubTree(h, root, t, p);
    assert Owns(h, Locate(h, root, t, p), Get(t, p), Locate(h, root, t, p).address);
    forall q, n | IsNode(h, root, t, q, n) && !(p + [Key(k)] <= q)
      ensures IsNode(h', root, Put(t, p, node'), q, n)
    {
      NodeStable(h, h', root, t, p, Key(k), node', q, n);
    }
  }

  /** An object after some of its fields have been assigned. */
  function Assigned(h: Heap, a: Address, update: map<string, Value>): Heap
    requires a in h && h[a].Object?
  {
    h[a := Object(h[a].entries + update)]
  }

  /** `object[k] = w`, for a value that shares no cell with the tree. */
  lemma KeyWritten(h: Heap, h': Heap, root: Value, t: Json, p: Path, node: NodeRef, k: string, w: Value, tw: Json,
                   reserved: set<Address>)
    requires Tree(h, root, t) && HasPath(t, p) && Get(t, p).Obj?
    requires node.value == Locate(h, root, t, p) && node.value.Ref?
    requires node.value.address in h && h[node.value.address].Object?
    requires Tree(h, w, tw) && forall x | Owns(h, w, tw, x) :: !Owns(h, root, t, x) && x !in reserved
    requires forall x | x in reserved :: x in h && !Owns(h, root, t, x)
    requires h' == h[node.value.address := Object(h[node.value.address].entries[k := w])]
    ensures KeySet(h, h', root, t, p, k, w, tw, reserved)
  {
    WriteIsEdit(h, h', root, t, p, node, k, w, tw);
    KeySetFollows(h, h', root, t, p, k, w, tw, reserved);
  }

  // ---- One match --------------------------------------------------------------------------------------------

  /** The values of an update are trees of their own; neither they nor the tree being rewritten reach a cell that
      is reserved for later. */
  ghost predicate UpdateApart(h: Heap, root: Value, t: Json, update: map<string, Value>, trees: map<string, Json>,
                              reserved: set<Address>)
  {
    && update.Keys == trees.Keys
    && (forall k | k in update :: Tree(h, update[k], trees[k]))
    && (forall k, x | k in update && Owns(h, update[k], trees[k], x) :: !Owns(h, root, t, x) && x !in reserved)
    && (forall k, k', x | k in update && k' in update && k != k' && Owns(h, update[k], trees[k], x) ::
          !Owns(h, update[k'], trees[k'], x))
    && (forall x | x in reserved :: x in h && !Owns(h, root, t, x))
  }

  function Only<V>(m: map<string, V>, keys: set<string>): map<string, V> {
    map k | k in m && k in keys :: m[k]
  }

  /** The fields of a match once all keys but `rest` are assigned. */
  ghost predicate UpdatedFields(before: map<string, Json>, trees: map<string, Json>, rest: set<string>,
                                fields: map<string, Json>)
  {
    && fields.Keys == before.Keys + (trees.Keys - rest)
    && forall k | k in fields :: fields[k] == if k in trees && k !in rest then trees[k] else before[k]
  }

  /** After assigning one key, the other values are still apart from the tree. */
  lemma RestStaysApart(h: Heap, h': Heap, root: Value, t: Json, t': Json, p: Path, update: map<string, Value>,
                       trees: map<string, Json>, k: string, reserved: set<Address>)
    requires UpdateApart(h, root, t, update, trees, reserved) && k in update
    requires Tree(h, root, t) && HasPath(t, p) && Locate(h, root, t, p).Ref?
    requires forall x | x in h && x != Locate(h, root, t, p).address :: x in h' && h'[x] == h[x]
    requires forall x | Owns(h', root, t', x) :: Owns(h, root, t, x) || Owns(h, update[k], trees[k], x)
    requires ReservedKept(h, h', root, t', reserved)
    ensures UpdateApart(h', root, t', update - {k}, trees - {k}, reserved)
  {
    SubTree(h, root, t, p);
    assert Owns(h, root, t, Locate(h, root, t, p).address);
    forall k' | k' in update && k' != k
      ensures Tree(h', update[k'], trees[k'])
      ensures forall x :: Owns(h', update[k'], trees[k'], x) <==> Owns(h, update[k'], trees[k'], x)
    {
      Frame(h, h', update[k'], trees[k']);
    }
  }

  /** The state of the update loop when the keys in `rest` are still to be assigned. */
  ghost predicate Updating(h0: Heap, h: Heap, root: Value, t: Json, p: Path, node: NodeRef, update: map<string, Value>,
                           trees: map<string, Json>, rest: set<string>, fields: map<string, Json>,
                           reserved: set<Address>)
  {
    && HasPath(t, p) && Get(t, p).Obj? && UpdatedFields(Get(t, p).fields, trees, rest, fields)
    && var cur := Put(t, p, Obj(fields));
    && IsNode(h, root, cur, p, node)
    && UpdateApart(h, root, cur, Only(update, rest), Only(trees, rest), reserved)
    && ReservedKept(h0, h, root, cur, reserved)
    && StableNodes(h0, h, root, t, cur, p)
  }

  lemma UpdatingStarts(h: Heap, root: Value, t: Json, p: Path, node: NodeRef, update: map<string, Value>,
                       trees: map<string, Json>, reserved: set<Address>)
    requires IsNode(h, root, t, p, node) && Get(t, p).Obj? && UpdateApart(h, root, t, update, trees, reserved)
    ensures Updating(h, h, root, t, p, node, update, trees, update.Keys, Get(t, p).fields, reserved)
  {
    PutSame(t, p);
    assert Only(update, update.Keys) == update && Only(trees, update.Keys) == trees;
  }

  lemma UpdatingDone(h0: Heap, h: Heap, root: Value, t: Json, p: Path, node: NodeRef, update: map<string, Value>,
                     trees: map<string, Json>, fields: map<string, Json>, reserved: set<Address>)
    requires Updating(h0, h, root, t, p, node, update, trees, {}, fields, reserved)
    ensures var t' := Put(t, p, Obj(Get(t, p).fields + trees));
            Tree(h, root, t') && ReservedKept(h0, h, root, t', reserved) && StableNodes(h0, h, root, t, t', p)
  {
    hide Tree, Owns, Locate, SlotAt, StableNodes;
    assert fields == Get(t, p).fields + trees;
  }

  lemma UpdatingReady(h0: Heap, h: Heap, root: Value, t: Json, p: Path, node: NodeRef, update: map<string, Value>,
                      trees: map<string, Json>, rest: set<string>, fields: map<string, Json>, reserved: set<Address>,
                      k: string)
    requires Updating(h0, h, root, t, p, node, update, trees, rest, fields, reserved)
    requires k in rest && rest <= update.Keys
    ensures var cur := Put(t, p, Obj(fields));
            && Tree(h, root, cur) && HasPath(cur, p) && Get(cur, p) == Obj(fields)
            && node.value == Locate(h, root, cur, p)
            && node.value.Ref? && node.value.address in h && h[node.value.address].Object?
            && k in trees && Tree(h, update[k], trees[k])
            && (forall x | Owns(h, update[k], trees[k], x) :: !Owns(h, root, cur, x) && x !in reserved)
            && (forall x | x in reserved :: x in h && !Owns(h, root, cur, x))
  {
    PutGet(t, p, Obj(fields), Obj(fields));
    SubTree(h, root, Put(t, p, Obj(fields)), p);
    assert k in Only(update, rest) && Only(update, rest)[k] == update[k];
    assert k in Only(trees, rest) && Only(trees, rest)[k] == trees[k];
  }

  lemma NodeIs(h: Heap, root: Value, t: Json, p: Path, node: NodeRef)
    requires IsNode(h, root, t, p, node)
    ensures Tree(h, root, t) && HasPath(t, p) && node.value == Locate(h, root, t, p)
  {
  }

  lemma OthersStayApart(h: Heap, h': Heap, root: Value, cur: Json, cur': Json, p: Path, update: map<string, Value>,
                        trees: map<string, Json>, rest: set<string>, reserved: set<Address>, k: string)
    requires k in rest && rest <= update.Keys && k in trees
    requires UpdateApart(h, root, cur, Only(update, rest), Only(trees, rest), reserved)
    requires KeySet(h, h', root, cur, p, k, update[k], trees[k], reserved)
    requires cur' == Put(cur, p, WithChild(Get(cur, p), Key(k), trees[k]))
    requires Tree(h, root, cur) && Locate(h, root, cur, p).Ref?
    requires forall x | x in h && x != Locate(h, root, cur, p).address :: x in h' && h'[x] == h[x]
    ensures UpdateApart(h', root, cur', Only(update, rest - {k}), Only(trees, rest - {k}), reserved)
  {
    hide Tree, Owns, SlotAt, Locate, HasPath, Get, Put, UpdateApart, IsNode;
    var someUpdate, someTrees := Only(update, rest), Only(trees, rest);
    assert k in someUpdate && someUpdate[k] == update[k] && k in someTrees && someTrees[k] == trees[k];
    RestStaysApart(h, h', root, cur, cur', p, someUpdate, someTrees, k, reserved);
    assert Only(update, rest - {k}) == someUpdate - {k};
    assert Only(trees, rest - {k}) == someTrees - {k};
  }

  lemma StableNodesStep(h0: Heap, h: Heap, h': Heap, root: Value, t: Json, cur: Json, cur': Json, p: Path, k: string)
    requires StableNodes(h0, h, root, t, cur, p)
    requires forall q, n | IsNode(h, root, cur, q, n) && !(p + [Key(k)] <= q) :: IsNode(h', root, cur', q, n)
    ensures StableNodes(h0, h', root, t, cur', p)
  {
    forall q, n | IsNode(h0, root, t, q, n) && !(p < q)
      ensures IsNode(h', root, cur', q, n)
    {
      assert IsNode(h, root, cur, q, n);
      assert !(p + [Key(k)] <= q);
    }
  }

  lemma UpdatingStep(h0: Heap, h: Heap, h': Heap, root: Value, t: Json, p: Path, node: NodeRef,
                     update: map<string, Value>, trees: map<string, Json>, rest: set<string>,
                     fields: map<string, Json>, reserved: set<Address>, k: string)
    requires Updating(h0, h, root, t, p, node, update, trees, rest, fields, reserved)
    requires k in rest && rest <= update.Keys && k in trees
    requires node.value.Ref? && forall x | x in h && x != node.value.address :: x in h' && h'[x] == h[x]
    requires KeySet(h, h', root, Put(t, p, Obj(fields)), p, k, update[k], trees[k], reserved)
    ensures Updating(h0, h', root, t, p, node, update, trees, rest - {k}, fields[k := trees[k]], reserved)
  {
    hide Tree, Owns, SlotAt, Locate, HasPath, Get, Put, UpdateApart, StableNodes, IsNode;
    var cur, fields' := Put(t, p, Obj(fields)), fields[k := trees[k]];
    PutGet(t, p, Obj(fields), Obj(fields'));
    assert WithChild(Get(cur, p), Key(k), trees[k]) == Obj(fields');
    NodeIs(h, root, cur, p, node);
    OthersStayApart(h, h', root, cur, Put(t, p, Obj(fields')), p, update, trees, rest, reserved, k);
    assert !(p + [Key(k)] <= p);
    StableNodesStep(h0, h, h', root, t, cur, Put(t, p, Obj(fields')), p, k);
  }

  lemma AssignedTwice(h: Heap, a: Address, update: map<string, Value>, rest: set<string>, k: string)
    requires a in h && h[a].Object? && k in rest && rest <= update.Keys
    ensures var h' := h[a := Object(h[a].entries[k := update[k]])];
            Assigned(h', a, Only(update, rest - {k})) == Assigned(h, a, Only(update, rest))
  {
    var entries := h[a].entries;
    assert entries[k := update[k]] + Only(update, rest - {k}) == entries + Only(update, rest);
  }

  lemma AssignedNothing(h: Heap, a: Address, update: map<string, Value>)
    requires a in h && h[a].Object?
    ensures Assigned(h, a, Only(update, {})) == h
  {
    assert h[a].entries + Only(update, {}) == h[a].entries;
  }

  lemma AssignedMore(h: Heap, a: Address, update: map<string, Value>, done: set<string>, k: string)
    requires a in h && h[a].Object? && k in update && k !in done
    ensures var h' := Assigned(h, a, Only(update, done));
            h'[a := Object(h'[a].entries[k := update[k]])] == Assigned(h, a, Only(update, done + {k}))
  {
    var entries := h[a].entries;
    assert (entries + Only(update, done))[k := update[k]] == entries + Only(update, done + {k});
  }

  /** Assigning one key. */
  lemma KeyUpdated(h0: Heap, h: Heap, root: Value, t: Json, p: Path, node: NodeRef, update: map<string, Value>,
                   trees: map<string, Json>, rest: set<string>, fields: map<string, Json>, reserved: set<Address>,
                   k: string)
    requires Updating(h0, h, root, t, p, node, update, trees, rest, fields, reserved)
    requires rest <= update.Keys && update.Keys == trees.Keys && k in rest
    requires node.value.Ref? && node.value.address in h && h[node.value.address].Object?
    ensures var h1 := h[node.value.address := Object(h[node.value.address].entries[k := update[k]])];
            Updating(h0, h1, root, t, p, node, update, trees, rest - {k}, fields[k := trees[k]], reserved)
  {
    assert HasPath(t, p);
    hide *;
    var h1 := h[node.value.address := Object(h[node.value.address].entries[k := update[k]])];
    UpdatingReady(h0, h, root, t, p, node, update, trees, rest, fields, reserved, k);
    KeyWritten(h, h1, root, Put(t, p, Obj(fields)), p, node, k, update[k], trees[k], reserved);
    UpdatingStep(h0, h, h1, root, t, p, node, update, trees, rest, fields, reserved, k);
  }

  /** Assigning what is left of an update, key by key. */
  lemma {:induction false} MatchUpdating(h0: Heap, h: Heap, root: Value, t: Json, p: Path, node: NodeRef,
                                         update: map<string, Value>, trees: map<string, Json>, rest: set<string>,
                                         fields: map<string, Json>, reserved: set<Address>)
    requires Updating(h0, h, root, t, p, node, update, trees, rest, fields, reserved)
    requires rest <= update.Keys && update.Keys == trees.Keys
    requires node.value.Ref? && node.value.address in h && h[node.value.address].Object?
    ensures Updating(h0, Assigned(h, node.value.address, Only(update, rest)), root, t, p, node, update, trees, {},
                     fields + Only(trees, rest), reserved)
    decreases rest
  {
    hide Updating, Assigned;
    var a := node.value.address;
    if rest == {} {
      AssignedNothing(h, a, update);
      assert fields + Only(trees, {}) == fields;
    } else {
      var k :| k in rest;
      assert fields[k := trees[k]] + Only(trees, rest - {k}) == fields + Only(trees, rest);
      hide Only;
      AssignedTwice(h, a, update, rest, k);
      KeyUpdated(h0, h, root, t, p, node, update, trees, rest, fields, reserved, k);
      var h1 := h[a := Object(h[a].entries[k := update[k]])];
      MatchUpdating(h0, h1, root, t, p, node, update, trees, rest - {k}, fields[k := trees[k]], reserved);
    }
  }

  /** A match is an object of the tree exactly when its value refers to an object. */
  lemma NodeKind(h: Heap, root: Value, t: Json, p: Path, node: NodeRef)
    requires IsNode(h, root, t, p, node)
    ensures node.value.Ref? ==> node.value.address in h && Owns(h, root, t, node.value.address)
    ensures Get(t, p).Obj? <==> node.value.Ref? && h[node.value.address].Object?
  {
    SubTree(h, root, t, p);
    if node.value.Ref? {
      assert Owns(h, node.value, Get(t, p), node.value.address);
    }
  }

  /** The assignments of one update to one match, in whatever order the map is walked. */
  lemma MatchUpdated(h: Heap, root: Value, t: Json, p: Path, node: NodeRef, update: map<string, Value>,
                     trees: map<string, Json>, reserved: set<Address>)
    requires IsNode(h, root, t, p, node) && Get(t, p).Obj? && UpdateApart(h, root, t, update, trees, reserved)
    ensures node.value.Ref? && node.value.address in h && h[node.value.address].Object?
    ensures var h', t' := Assigned(h, node.value.address, update), Put(t, p, Obj(Get(t, p).fields + trees));
            Tree(h', root, t') && ReservedKept(h, h', root, t', reserved) && StableNodes(h, h', root, t, t', p)
  {
    NodeKind(h, root, t, p, node);
    var fields, a := Get(t, p).fields, node.value.address;
    assert update.Keys == trees.Keys;
    assert Only(update, update.Keys) == update && Only(trees, update.Keys) == trees;
    hide *;
    UpdatingStarts(h, root, t, p, node, update, trees, reserved);
    MatchUpdating(h, h, root, t, p, node, update, trees, update.Keys, fields, reserved);
    UpdatingDone(h, Assigned(h, a, update), root, t, p, node, update, trees, fields + trees, reserved);
  }

  // ---- All matches ------------------------------------------------------------------------------------------

  /** The heap after the first `n` matches have been updated, where these are objects. */
  function Written(h: Heap, nodes: seq<NodeRef>, n: nat, update: map<string, Value>): (r: Heap)
    requires n <= |nodes|
    ensures r.Keys == h.Keys && forall x | x in h :: r[x].Object? == h[x].Object?
  {
    if n == 0 then h
    else
      var before, v := Written(h, nodes, n - 1, update), nodes[n - 1].value;
      if v.Ref? && v.address in before && before[v.address].Object? then Assigned(before, v.address, update) else before
  }

  /** Cells that no match refers to stay. */
  lemma {:induction false} WrittenBeside(h: Heap, nodes: seq<NodeRef>, n: nat, update: map<string, Value>, x: Address)
    requires n <= |nodes| && x in h && forall j | 0 <= j < n :: nodes[j].value != Ref(x)
    ensures Written(h, nodes, n, update)[x] == h[x]
    decreases n
  {
    if n > 0 {
      WrittenBeside(h, nodes, n - 1, update, x);
    }
  }

  /** A match that no other match refers to is written once. */
  lemma {:induction false} WrittenAt(h: Heap, nodes: seq<NodeRef>, n: nat, update: map<string, Value>, i: nat)
    requires i < n <= |nodes| && forall j | 0 <= j < n && j != i :: nodes[j].value != nodes[i].value
    requires nodes[i].value.Ref? && nodes[i].value.address in h && h[nodes[i].value.address].Object?
    ensures var a := nodes[i].value.address; Written(h, nodes, n, update)[a] == Object(h[a].entries + update)
    decreases n
  {
    if i == n - 1 {
      WrittenBeside(h, nodes, n - 1, update, nodes[i].value.address);
    } else {
      WrittenAt(h, nodes, n - 1, update, i);
    }
  }

  lemma MatchesApart(h: Heap, root: Value, t: Json, paths: seq<Path>, nodes: seq<NodeRef>, i: nat, j: nat)
    requires IsNodes(h, root, t, paths, nodes) && AllUnrelated(paths) && i < |nodes| && j < |nodes| && i != j
    requires nodes[i].value.Ref?
    ensures nodes[i].value != nodes[j].value
  {
    assert IsNode(h, root, t, paths[i], nodes[i]) && IsNode(h, root, t, paths[j], nodes[j]);
    if nodes[i].value == nodes[j].value {
      OnePlace(h, root, t, paths[i], paths[j]);
    }
  }

  predicate AllPlain(update: map<string, Value>) {
    forall k | k in update :: update[k].Plain?
  }

  lemma PlainTree(h: Heap, h': Heap, v: Value, t: Json)
    requires v.Plain? && Tree(h, v, t)
    ensures Tree(h', v, t) && forall x :: !Owns(h', v, t, x)
  {
  }

  /** Scalars can be assigned to any number of matches. */
  lemma PlainStaysApart(h: Heap, h': Heap, root: Value, t: Json, t': Json, update: map<string, Value>,
                        trees: map<string, Json>, reserved: set<Address>)
    requires UpdateApart(h, root, t, update, trees, reserved) && AllPlain(update)
    requires ReservedKept(h, h', root, t', reserved)
    ensures UpdateApart(h', root, t', update, trees, reserved)
  {
    hide Tree, Owns;
    forall k | k in update
      ensures Tree(h', update[k], trees[k]) && forall x :: !Owns(h', update[k], trees[k], x)
    {
      PlainTree(h, h', update[k], trees[k]);
    }
  }

  lemma {:induction false} UpdateFails(t: Json, paths: seq<Path>, m: nat, n: nat, trees: map<string, Json>)
    requires m <= n <= |paths| && UpdateFirst(t, paths, m, trees).Err?
    ensures UpdateFirst(t, paths, n, trees).Err?
    decreases n
  {
    if m < n {
      UpdateFails(t, paths, m, n - 1, trees);
    }
  }

  lemma KindOfMatch(h0: Heap, h: Heap, root: Value, t: Json, paths: seq<Path>, nodes: seq<NodeRef>,
                    reserved: set<Address>, i: nat)
    requires MatchesHeld(h0, h, root, t, paths, nodes, reserved) && i < |nodes|
    ensures IsNode(h, root, t, paths[i], nodes[i]) && HasPath(t, paths[i])
    ensures nodes[i].value.Ref? ==> nodes[i].value.address in h
    ensures Get(t, paths[i]).Obj? <==> nodes[i].value.Ref? && h[nodes[i].value.address].Object?
  {
    assert IsNode(h, root, t, paths[i], nodes[i]);
    SubTree(h, root, t, paths[i]);
  }

  /** Where an update assigns only scalars or meets only one match, the tree is rewritten as it should be. */
  lemma {:induction false} WrittenHolds(h: Heap, root: Value, t: Json, paths: seq<Path>, nodes: seq<NodeRef>, n: nat,
                                        update: map<string, Value>, trees: map<string, Json>, reserved: set<Address>)
    requires n <= |nodes| && Tree(h, root, t) && IsNodes(h, root, t, paths, nodes) && AllUnrelated(paths)
    requires UpdateApart(h, root, t, update, trees, reserved) && (|paths| > 1 ==> AllPlain(update))
    requires UpdateFirst(t, paths, n, trees).Ok?
    ensures var h', t' := Written(h, nodes, n, update), UpdateFirst(t, paths, n, trees).value;
            && MatchesHeld(h, h', root, t', paths, nodes, reserved)
            && (n < |nodes| ==> UpdateApart(h', root, t', update, trees, reserved))
    decreases n
  {
    if n == 0 {
      MatchesHeldStarts(h, root, t, paths, nodes, update, trees, reserved);
    } else {
      var i := n - 1;
      UpdateMore(t, paths, i, trees);
      WrittenHolds(h, root, t, paths, nodes, i, update, trees, reserved);
      WrittenMore(h, nodes, i, update);
      hide *;
      var before, cur := Written(h, nodes, i, update), UpdateFirst(t, paths, i, trees).value;
      OneMoreHolds(h, before, root, cur, paths, nodes, i, update, trees, reserved);
    }
  }

  lemma WrittenMore(h: Heap, nodes: seq<NodeRef>, i: nat, update: map<string, Value>)
    requires i < |nodes|
    ensures var before, v := Written(h, nodes, i, update), nodes[i].value;
            v.Ref? && v.address in before && before[v.address].Object? ==>
              Written(h, nodes, i + 1, update) == Assigned(before, v.address, update)
  {
  }

  lemma UpdateMore(t: Json, paths: seq<Path>, i: nat, trees: map<string, Json>)
    requires i < |paths|
    ensures var before, result := UpdateFirst(t, paths, i, trees), UpdateFirst(t, paths, i + 1, trees);
            && (result.Ok? <==> before.Ok? && HasPath(before.value, paths[i]) && Get(before.value, paths[i]).Obj?)
            && (result.Ok? ==>
                  result.value == Put(before.value, paths[i], Obj(Get(before.value, paths[i]).fields + trees)))
  {
  }

  lemma OneMoreHolds(h: Heap, before: Heap, root: Value, cur: Json, paths: seq<Path>, nodes: seq<NodeRef>, i: nat,
                     update: map<string, Value>, trees: map<string, Json>, reserved: set<Address>)
    requires i < |nodes| == |paths| && AllUnrelated(paths) && (|paths| > 1 ==> AllPlain(update))
    requires MatchesHeld(h, before, root, cur, paths, nodes, reserved) && HasPath(cur, paths[i])
    requires UpdateApart(before, root, cur, update, trees, reserved) && Get(cur, paths[i]).Obj?
    ensures nodes[i].value.Ref? && nodes[i].value.address in before && before[nodes[i].value.address].Object?
    ensures var h' := Assigned(before, nodes[i].value.address, update);
            var cur' := Put(cur, paths[i], Obj(Get(cur, paths[i]).fields + trees));
            && MatchesHeld(h, h', root, cur', paths, nodes, reserved)
            && (i + 1 < |nodes| ==> UpdateApart(h', root, cur', update, trees, reserved))
  {
    hide *;
    KindOfMatch(h, before, root, cur, paths, nodes, reserved, i);
    MatchUpdated(before, root, cur, paths[i], nodes[i], update, trees, reserved);
    var h' := Assigned(before, nodes[i].value.address, update);
    var cur' := Put(cur, paths[i], Obj(Get(cur, paths[i]).fields + trees));
    MatchesHeldStep(h, before, h', root, cur, cur', paths, nodes, i, reserved);
    if i + 1 < |nodes| {
      PlainStaysApart(before, h', root, cur, cur', update, trees, reserved);
    }
  }

  lemma MatchesHeldStarts(h: Heap, root: Value, t: Json, paths: seq<Path>, nodes: seq<NodeRef>,
                          update: map<string, Value>, trees: map<string, Json>, reserved: set<Address>)
    requires Tree(h, root, t) && IsNodes(h, root, t, paths, nodes) && UpdateApart(h, root, t, update, trees, reserved)
    ensures MatchesHeld(h, h, root, t, paths, nodes, reserved) && Untouched(h, h, reserved)
  {
  }

  lemma WrittenUntouched(h: Heap, root: Value, t: Json, paths: seq<Path>, nodes: seq<NodeRef>, n: nat,
                         update: map<string, Value>, trees: map<string, Json>, reserved: set<Address>)
    requires n <= |nodes| && IsNodes(h, root, t, paths, nodes) && UpdateApart(h, root, t, update, trees, reserved)
    ensures Untouched(h, Written(h, nodes, n, update), reserved)
  {
    forall x | x in reserved && x in h
      ensures Written(h, nodes, n, update)[x] == h[x]
    {
      WrittenOwned(h, root, t, paths, nodes, n, update, x);
    }
  }

  /** Only cells of the tree are written. */
  lemma WrittenOwned(h: Heap, root: Value, t: Json, paths: seq<Path>, nodes: seq<NodeRef>, n: nat,
                     update: map<string, Value>, x: Address)
    requires n <= |nodes| && IsNodes(h, root, t, paths, nodes) && x in h && !Owns(h, root, t, x)
    ensures Written(h, nodes, n, update)[x] == h[x]
  {
    forall j | 0 <= j < n
      ensures nodes[j].value != Ref(x)
    {
      assert IsNode(h, root, t, paths[j], nodes[j]);
      NodeKind(h, root, t, paths[j], nodes[j]);
    }
    WrittenBeside(h, nodes, n, update, x);
  }

  lemma NodesAreIn(h: Heap, root: Value, t: Json, paths: seq<Path>, nodes: seq<NodeRef>)
    requires IsNodes(h, root, t, paths, nodes)
    ensures |nodes| == |paths| && AllIn(t, paths)
  {
    forall i | 0 <= i < |paths|
      ensures HasPath(t, paths[i])
    {
      assert IsNode(h, root, t, paths[i], nodes[i]);
    }
  }

  lemma UpdateStarts(h: Heap, t: Json, paths: seq<Path>, nodes: seq<NodeRef>, update: map<string, Value>,
                     trees: map<string, Json>)
    ensures Written(h, nodes, 0, update) == h && UpdateFirst(t, paths, 0, trees) == Ok(t)
  {
  }

  /** The next match is an object in the heap as it is exactly when the update of the tree goes on. */
  lemma NextMatch(h: Heap, root: Value, t: Json, paths: seq<Path>, nodes: seq<NodeRef>, i: nat,
                  update: map<string, Value>, trees: map<string, Json>)
    requires IsNodes(h, root, t, paths, nodes) && AllUnrelated(paths) && i < |nodes|
    requires UpdateFirst(t, paths, i, trees).Ok?
    ensures var h', v := Written(h, nodes, i, update), nodes[i].value;
            && (v.Ref? ==> v.address in h')
            && (UpdateFirst(t, paths, i + 1, trees).Ok? <==> v.Ref? && h'[v.address].Object?)
            && (v.Ref? && h'[v.address].Object? ==>
                  Written(h, nodes, i + 1, update) == Assigned(h', v.address, update))
  {
    assert IsNode(h, root, t, paths[i], nodes[i]);
    NodeKind(h, root, t, paths[i], nodes[i]);
    hide Tree, Owns, Get, HasPath, Locate, SlotAt;
    UpdateElsewhere(t, paths, i, trees, paths[i]);
    UpdateMore(t, paths, i, trees);
    WrittenMore(h, nodes, i, update);
  }

  // ---- What the result reads as, with values shared by several matches --------------------------------------

  /** An object or array of the tree that no match is at keeps its cell. */
  lemma NoMatchHere(h: Heap, root: Value, t: Json, paths: seq<Path>, nodes: seq<NodeRef>, update: map<string, Value>,
                    p: Path)
    requires IsNodes(h, root, t, paths, nodes) && Tree(h, root, t) && HasPath(t, p) && p !in paths
    requires Locate(h, root, t, p).Ref? && Locate(h, root, t, p).address in h
    ensures var a := Locate(h, root, t, p).address; Written(h, nodes, |nodes|, update)[a] == h[a]
  {
    forall j | 0 <= j < |nodes|
      ensures nodes[j].value != Locate(h, root, t, p)
    {
      assert IsNode(h, root, t, paths[j], nodes[j]) && paths[j] in paths;
      if nodes[j].value == Locate(h, root, t, p) {
        OnePlace(h, root, t, p, paths[j]);
      }
    }
    WrittenBeside(h, nodes, |nodes|, update, Locate(h, root, t, p).address);
  }

  /** What is below one match, or in a value of the update, reads as before. */
  lemma BelowMatch(h: Heap, root: Value, t: Json, paths: seq<Path>, nodes: seq<NodeRef>, update: map<string, Value>,
                   i: nat, s: Step)
    requires IsNodes(h, root, t, paths, nodes) && AllUnrelated(paths) && Tree(h, root, t)
    requires i < |paths| && HasPath(t, paths[i]) && Has(Get(t, paths[i]), s)
    requires nodes[i].value.Ref? && nodes[i].value.address in h && CellHas(h[nodes[i].value.address], s)
    ensures Denotes(Written(h, nodes, |nodes|, update), Kid(h[nodes[i].value.address], s), Child(Get(t, paths[i]), s))
  {
    var p, a, h' := paths[i], nodes[i].value.address, Written(h, nodes, |nodes|, update);
    assert IsNode(h, root, t, p, nodes[i]);
    SubTree(h, root, t, p);
    var kid, child := Kid(h[a], s), Child(Get(t, p), s);
    forall x | Owns(h, kid, child, x)
      ensures x in h' && h'[x] == h[x]
    {
      assert Owns(h, nodes[i].value, Get(t, p), x) && x != a;
      forall j | 0 <= j < |nodes|
        ensures nodes[j].value != Ref(x)
      {
        assert IsNode(h, root, t, paths[j], nodes[j]);
        if j != i && nodes[j].value == Ref(x) {
          SubTree(h, root, t, paths[j]);
          assert Owns(h, nodes[j].value, Get(t, paths[j]), x);
          DisjointSubtrees(h, root, t, p, paths[j], x);
        }
      }
      WrittenBeside(h, nodes, |nodes|, update, x);
    }
    Frame(h, h', kid, child);
    TreeDenotes(h', kid, child);
  }

  lemma ValueReads(h: Heap, root: Value, t: Json, paths: seq<Path>, nodes: seq<NodeRef>, update: map<string, Value>,
                   trees: map<string, Json>, reserved: set<Address>, k: string)
    requires IsNodes(h, root, t, paths, nodes) && UpdateApart(h, root, t, update, trees, reserved) && k in update
    ensures k in trees && Denotes(Written(h, nodes, |nodes|, update), update[k], trees[k])
  {
    var h' := Written(h, nodes, |nodes|, update);
    forall x | Owns(h, update[k], trees[k], x)
      ensures x in h' && h'[x] == h[x]
    {
      WrittenOwned(h, root, t, paths, nodes, |nodes|, update, x);
    }
    Frame(h, h', update[k], trees[k]);
    TreeDenotes(h', update[k], trees[k]);
  }

  /** A match reads as its old fields overridden by the update, whoever else holds these values. */
  lemma MatchReads(h: Heap, root: Value, t: Json, paths: seq<Path>, nodes: seq<NodeRef>, update: map<string, Value>,
                   trees: map<string, Json>, reserved: set<Address>, i: nat)
    requires IsNodes(h, root, t, paths, nodes) && AllUnrelated(paths) && Tree(h, root, t)
    requires UpdateApart(h, root, t, update, trees, reserved)
    requires i < |paths| && HasPath(t, paths[i]) && Get(t, paths[i]).Obj?
    ensures Denotes(Written(h, nodes, |nodes|, update), nodes[i].value, Obj(Get(t, paths[i]).fields + trees))
  {
    var node, h' := Get(t, paths[i]), Written(h, nodes, |nodes|, update);
    var node' := Obj(node.fields + trees);
    assert IsNode(h, root, t, paths[i], nodes[i]);
    NodeKind(h, root, t, paths[i], nodes[i]);
    var a := nodes[i].value.address;
    forall j | 0 <= j < |nodes| && j != i
      ensures nodes[j].value != nodes[i].value
    {
      MatchesApart(h, root, t, paths, nodes, i, j);
    }
    WrittenAt(h, nodes, |nodes|, update, i);
    SubTree(h, root, t, paths[i]);
    FieldsOf(h[a], node);
    forall k | k in node'.fields
      ensures k in h'[a].entries && Denotes(h', h'[a].entries[k], node'.fields[k])
    {
      if k in trees {
        ValueReads(h, root, t, paths, nodes, update, trees, reserved, k);
      } else {
        BelowMatch(h, root, t, paths, nodes, update, i, Key(k));
      }
    }
    ObjectReads(h', a, node');
  }

  lemma FieldsOf(c: Cell, t: Json)
    requires SameShape(c, t) && t.Obj?
    ensures c.Object? && c.entries.Keys == t.fields.Keys
  {
    forall k
      ensures k in c.entries <==> k in t.fields
    {
      assert CellHas(c, Key(k)) <==> Has(t, Key(k));
    }
  }

  lemma ObjectReads(h: Heap, a: Address, t: Json)
    requires a in h && h[a].Object? && t.Obj? && h[a].entries.Keys == t.fields.Keys
    requires forall k | k in t.fields :: Denotes(h, h[a].entries[k], t.fields[k])
    ensures Denotes(h, Ref(a), t)
  {
    forall s
      ensures CellHas(h[a], s) <==> Has(t, s)
      ensures Has(t, s) ==> Denotes(h, Kid(h[a], s), Child(t, s))
    {
    }
  }

  lemma PrefixOrSame(m: Path, p: Path)
    ensures m <= p <==> m < p || m == p
  {
    if m <= p && |m| == |p| {
      assert m == p[..|m|] == p;
    }
  }

  /** The tree after an update, read from any place that no match is above. */
  lemma {:induction false} UpdatedReads(h: Heap, root: Value, t: Json, paths: seq<Path>, nodes: seq<NodeRef>,
                                        update: map<string, Value>, trees: map<string, Json>, reserved: set<Address>,
                                        p: Path)
    requires Tree(h, root, t) && IsNodes(h, root, t, paths, nodes) && AllUnrelated(paths) && AllIn(t, paths)
    requires UpdateApart(h, root, t, update, trees, reserved) && UpdateFirst(t, paths, |paths|, trees).Ok?
    requires HasPath(t, p) && forall m | m in paths :: !(m < p)
    ensures var t' := UpdateFirst(t, paths, |paths|, trees).value;
            HasPath(t', p) && Denotes(Written(h, nodes, |nodes|, update), Locate(h, root, t, p), Get(t', p))
    decreases Get(t, p)
  {
    var t', h' := UpdateFirst(t, paths, |paths|, trees).value, Written(h, nodes, |nodes|, update);
    var v := Locate(h, root, t, p);
    if p in paths {
      var i :| 0 <= i < |paths| && paths[i] == p;
      assert IsNode(h, root, t, p, nodes[i]);
      UpdateHere(t, paths, |paths|, trees, i);
      MatchReads(h, root, t, paths, nodes, update, trees, reserved, i);
    } else {
      forall i | 0 <= i < |paths|
        ensures !(paths[i] <= p)
      {
        assert paths[i] in paths;
        PrefixOrSame(paths[i], p);
      }
      UpdateKeepsTop(t, paths, |paths|, trees, p);
      SubTree(h, root, t, p);
      if v.Ref? {
        NoMatchHere(h, root, t, paths, nodes, update, p);
        forall s | Has(Get(t, p), s)
          ensures Denotes(h', Kid(h[v.address], s), Child(Get(t', p), s))
        {
          PathExtend(t, p, s);
          PathExtend(t', p, s);
          LocateExtend(h, root, t, p, s);
          forall m | m in paths
            ensures !(m < p + [s])
          {
            assert m < p + [s] ==> m <= p;
          }
          UpdatedReads(h, root, t, paths, nodes, update, trees, reserved, p + [s]);
        }
      }
    }
  }

  /** Whatever an update assigns, and to however many matches: the result reads as it should. */
  lemma WrittenReads(h: Heap, root: Value, t: Json, paths: seq<Path>, nodes: seq<NodeRef>, update: map<string, Value>,
                     trees: map<string, Json>, reserved: set<Address>)
    requires Tree(h, root, t) && IsNodes(h, root, t, paths, nodes) && AllUnrelated(paths) && AllIn(t, paths)
    requires UpdateApart(h, root, t, update, trees, reserved) && UpdateFirst(t, paths, |paths|, trees).Ok?
    ensures Denotes(Written(h, nodes, |nodes|, update), root, UpdateFirst(t, paths, |paths|, trees).value)
  {
    UpdatedReads(h, root, t, paths, nodes, update, trees, reserved, []);
  }

  /** The whole update loop. */
  lemma AllWritten(h: Heap, root: Value, t: Json, paths: seq<Path>, nodes: seq<NodeRef>, update: map<string, Value>,
                   trees: map<string, Json>, reserved: set<Address>)
    requires Tree(h, root, t) && IsNodes(h, root, t, paths, nodes) && AllUnrelated(paths) && AllIn(t, paths)
    requires UpdateApart(h, root, t, update, trees, reserved) && UpdateFirst(t, paths, |paths|, trees).Ok?
    ensures var h', t' := Written(h, nodes, |nodes|, update), UpdateFirst(t, paths, |paths|, trees).value;
            && Untouched(h, h', reserved) && Denotes(h', root, t')
            && ((|paths| > 1 ==> AllPlain(update)) ==> MatchesHeld(h, h', root, t', paths, nodes, reserved))
  {
    assert |nodes| == |paths|;
    hide *;
    WrittenUntouched(h, root, t, paths, nodes, |nodes|, update, trees, reserved);
    WrittenReads(h, root, t, paths, nodes, update, trees, reserved);
    if |paths| > 1 ==> AllPlain(update) {
      WrittenHolds(h, root, t, paths, nodes, |nodes|, update, trees, reserved);
    }
  }

  lemma ArrayReads(h: Heap, a: Address, t: Json)
    requires a in h && h[a].Slice? && t.Arr? && |h[a].elements| == |t.items|
    requires forall i | 0 <= i < |t.items| :: Denotes(h, h[a].elements[i], t.items[i])
    ensures Denotes(h, Ref(a), t)
  {
    forall s
      ensures CellHas(h[a], s) <==> Has(t, s)
      ensures Has(t, s) ==> Denotes(h, Kid(h[a], s), Child(t, s))
    {
    }
  }

  /** A list of two objects that hold the same object `inner` under `x`. */
  lemma SharedListReads(h: Heap, root: Address, list: Address, first: Address, second: Address, inner: Address, t: Json)
    requires {root, list, first, second, inner} <= h.Keys && h[root] == Object(map["list" := Ref(list)])
    requires h[list] == Slice([Ref(first), Ref(second)])
    requires h[first] == h[second] == Object(map["x" := Ref(inner)]) && Denotes(h, Ref(inner), t)
    ensures var item := Obj(map["x" := t]); Denotes(h, Ref(root), Obj(map["list" := Arr([item, item])]))
  {
    var item := Obj(map["x" := t]);
    ObjectReads(h, first, item);
    ObjectReads(h, second, item);
    ArrayReads(h, list, Arr([item, item]));
    ObjectReads(h, root, Obj(map["list" := Arr([item, item])]));
  }

  /** An object assigned to two matches reads as it should at first; assigning a field below one of the matches then
      shows at the other one too. */
  lemma SharedUpdateShowsTwice(h: Heap, nodes: seq<NodeRef>, scalar: Scalar)
    requires h == map[0 := Object(map["list" := Ref(1)]), 1 := Slice([Ref(2), Ref(3)]), 2 := Object(map[]),
                      3 := Object(map[]), 4 := Object(map[])]
    requires |nodes| == 2 && nodes[0].value == Ref(2) && nodes[1].value == Ref(3)
    ensures var h1 := Written(h, nodes, 2, map["x" := Ref(4)]);
            var h2 := Assigned(h1, 4, map["k" := Plain(scalar)]);
            var one, two := Obj(map["x" := Obj(map[])]), Obj(map["x" := Obj(map["k" := Leaf(scalar)])]);
            && Denotes(h1, Ref(0), Obj(map["list" := Arr([one, one])]))
            && Denotes(h2, Ref(0), Obj(map["list" := Arr([two, two])]))
  {
    var update := map["x" := Ref(4)];
    var h1 := Written(h, nodes, 2, update);
    WrittenAt(h, nodes, 2, update, 0);
    WrittenAt(h, nodes, 2, update, 1);
    forall x | x in {0, 1, 4}
      ensures h1[x] == h[x]
    {
      WrittenBeside(h, nodes, 2, update, x);
    }
    hide Written;
    assert map[] + update == update;
    ObjectReads(h1, 4, Obj(map[]));
    SharedListReads(h1, 0, 1, 2, 3, 4, Obj(map[]));
    var h2 := Assigned(h1, 4, map["k" := Plain(scalar)]);
    ObjectReads(h2, 4, Obj(map["k" := Leaf(scalar)]));
    SharedListReads(h2, 0, 1, 2, 3, 4, Obj(map["k" := Leaf(scalar)]));
  }
}
