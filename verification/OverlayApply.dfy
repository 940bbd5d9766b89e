/** pkg/overlay/apply.go on Go's maps and slices: references into a heap that the actions rewrite in place. `Engine`
    holds the code, method by method, proved against the pure rewriting of trees in `OverlayTree`; the lemmas before
    it carry the invariants of its loops: matches and slots that stay valid, values of later updates that stay apart,
    copies that replace what holds a match, and cells that nothing touches. */
module OverlayApply {
  import opened Wrappers
  import opened OverlayPath
  import opened OverlayTree
  import opened OverlayHeap
  import opened OverlayRemove
  import opened OverlayUpdate
  import OverlayMeaning

  // ---- The document -----------------------------------------------------------------------------------------

  /** The `k` value of the update of action `i` owns cell `x`. */
  ghost predicate EntryOwns(h: Heap, actions: seq<Action<Value>>, pure: seq<Action<Json>>, i: int, k: string,
                            x: Address)
    requires |actions| == |pure|
  {
    && 0 <= i < |actions| && actions[i].update.Some? && pure[i].update.Some?
    && k in actions[i].update.value && k in pure[i].update.value
    && Owns(h, actions[i].update.value[k], pure[i].update.value[k], x)
  }

  ghost predicate SameAction(h: Heap, action: Action<Value>, pure: Action<Json>) {
    && action.target == pure.target && action.copyTo == pure.copyTo && action.remove == pure.remove
    && action.update.Some? == pure.update.Some?
    && (action.update.Some? ==>
          && action.update.value.Keys == pure.update.value.Keys
          && forall k | k in action.update.value :: Tree(h, action.update.value[k], pure.update.value[k]))
  }

  /** The decoded document: its updates assign trees that share no cell. */
  ghost predicate DocumentIs(h: Heap, actions: seq<Action<Value>>, pure: seq<Action<Json>>) {
    && |actions| == |pure| && (forall i | 0 <= i < |actions| :: SameAction(h, actions[i], pure[i]))
    && forall i, k, j, l, x | EntryOwns(h, actions, pure, i, k, x) && EntryOwns(h, actions, pure, j, l, x) ::
         i == j && k == l
  }

  ghost predicate UpdateOwns(h: Heap, actions: seq<Action<Value>>, pure: seq<Action<Json>>, x: Address)
    requires |actions| == |pure|
  {
    exists i, k :: EntryOwns(h, actions, pure, i, k, x)
  }

  /** The cells that no update among the first `n` actions owns. */
  ghost function Later(h: Heap, actions: seq<Action<Value>>, pure: seq<Action<Json>>, n: nat): set<Address>
    requires |actions| == |pure|
  {
    set x | x in h && !(exists i, k :: i < n && EntryOwns(h, actions, pure, i, k, x))
  }

  lemma LaterStarts(h0: Heap, h: Heap, bound: Address, root: Value, t: Json, actions: seq<Action<Value>>,
                    pure: seq<Action<Json>>)
    requires |actions| == |pure|
    requires forall x | x in h0 :: x < bound && x in h && h[x] == h0[x]
    requires Tree(h, root, t) && forall x | Owns(h, root, t, x) :: bound <= x
    ensures ReservedKept(h0, h, root, t, Later(h0, actions, pure, 0))
    ensures Untouched(h0, h, Later(h0, actions, pure, |actions|))
  {
  }

  lemma EntryReady(h0: Heap, h: Heap, root: Value, t: Json, actions: seq<Action<Value>>, pure: seq<Action<Json>>,
                   i: nat, k: string)
    requires DocumentIs(h0, actions, pure) && i < |actions|
    requires ReservedKept(h0, h, root, t, Later(h0, actions, pure, i))
    requires actions[i].update.Some? && k in actions[i].update.value
    ensures pure[i].update.Some? && k in pure[i].update.value
    ensures var v, tree := actions[i].update.value[k], pure[i].update.value[k];
            && Tree(h, v, tree)
            && forall x | Owns(h, v, tree, x) ::
                 EntryOwns(h0, actions, pure, i, k, x) && !Owns(h, root, t, x) && x !in Later(h0, actions, pure, i + 1)
  {
    assert SameAction(h0, actions[i], pure[i]);
    var v, tree := actions[i].update.value[k], pure[i].update.value[k];
    forall x | Owns(h0, v, tree, x)
      ensures EntryOwns(h0, actions, pure, i, k, x) && x in Later(h0, actions, pure, i)
      ensures x !in Later(h0, actions, pure, i + 1)
    {
      assert EntryOwns(h0, actions, pure, i, k, x);
    }
    Frame(h0, h, v, tree);
  }

  lemma UpdateReady(h0: Heap, h: Heap, root: Value, t: Json, actions: seq<Action<Value>>, pure: seq<Action<Json>>,
                    i: nat)
    requires DocumentIs(h0, actions, pure) && i < |actions| && actions[i].update.Some? && pure[i].update.Some?
    requires ReservedKept(h0, h, root, t, Later(h0, actions, pure, i))
    ensures UpdateApart(h, root, t, actions[i].update.value, pure[i].update.value, Later(h0, actions, pure, i + 1))
  {
    hide Tree, Owns, EntryOwns;
    var update, trees := actions[i].update.value, pure[i].update.value;
    assert SameAction(h0, actions[i], pure[i]);
    forall k | k in update
      ensures k in trees && Tree(h, update[k], trees[k])
      ensures forall x | Owns(h, update[k], trees[k], x) ::
                EntryOwns(h0, actions, pure, i, k, x) && !Owns(h, root, t, x) && x !in Later(h0, actions, pure, i + 1)
    {
      EntryReady(h0, h, root, t, actions, pure, i, k);
    }
  }

  lemma NextActionReady(h0: Heap, h: Heap, root: Value, t: Json, actions: seq<Action<Value>>, pure: seq<Action<Json>>,
                        i: nat)
    requires DocumentIs(h0, actions, pure) && i < |actions| && Tree(h, root, t) && t.Obj?
    requires ReservedKept(h0, h, root, t, Later(h0, actions, pure, i))
    ensures ActionReady(h, root, t, actions[i], pure[i], Later(h0, actions, pure, i + 1))
  {
    hide Tree, Owns, EntryOwns;
    assert SameAction(h0, actions[i], pure[i]);
    if actions[i].update.Some? {
      UpdateReady(h0, h, root, t, actions, pure, i);
    }
    LaterKeptOn(h0, h, h, root, t, t, actions, pure, i);
  }

  lemma LaterKept(h0: Heap, h: Heap, h': Heap, actions: seq<Action<Value>>, pure: seq<Action<Json>>, i: nat)
    requires |actions| == |pure| && i < |actions|
    requires Untouched(h0, h, Later(h0, actions, pure, |actions|))
    requires Untouched(h, h', Later(h0, actions, pure, i + 1))
    ensures Untouched(h0, h', Later(h0, actions, pure, |actions|))
  {
    forall x | x in Later(h0, actions, pure, |actions|)
      ensures x in Later(h0, actions, pure, i + 1)
    {
    }
  }

  lemma LaterKeptOn(h0: Heap, h: Heap, h': Heap, root: Value, t: Json, t': Json, actions: seq<Action<Value>>,
                    pure: seq<Action<Json>>, i: nat)
    requires |actions| == |pure|
    requires ReservedKept(h0, h, root, t, Later(h0, actions, pure, i))
    requires ReservedKept(h, h', root, t', Later(h0, actions, pure, i + 1))
    ensures ReservedKept(h0, h', root, t', Later(h0, actions, pure, i + 1))
  {
    forall x | x in Later(h0, actions, pure, i + 1)
      ensures x in Later(h0, actions, pure, i)
    {
    }
  }

  lemma LaterIsUnowned(h0: Heap, h: Heap, actions: seq<Action<Value>>, pure: seq<Action<Json>>)
    requires |actions| == |pure| && Untouched(h0, h, Later(h0, actions, pure, |actions|))
    ensures forall x | x in h0 && !UpdateOwns(h0, actions, pure, x) :: x in h && h[x] == h0[x]
  {
    forall x | x in h0 && !UpdateOwns(h0, actions, pure, x)
      ensures x in Later(h0, actions, pure, |actions|)
    {
    }
  }

  lemma NoActions(t: Json, pure: seq<Action<Json>>, sprint: Printer)
    ensures ApplyActions(t, pure, 0, sprint) == Ok(t)
  {
  }

  lemma {:induction false} FaithfulPrefix(t: Json, pure: seq<Action<Json>>, m: nat, n: nat, sprint: Printer)
    requires m <= n <= |pure| && FaithfulRun(t, pure, n, sprint)
    ensures FaithfulRun(t, pure, m, sprint)
    decreases n
  {
    hide Faithful, ApplyAction;
    if m < n {
      FaithfulPrefix(t, pure, m, n - 1, sprint);
    }
  }

  /** What is known of the next action of a document. */
  lemma DocumentNext(t: Json, pure: seq<Action<Json>>, i: nat, sprint: Printer)
    requires i < |pure| && FaithfulDocument(t, pure, sprint) && ApplyActions(t, pure, i, sprint).Ok?
    ensures var before := ApplyActions(t, pure, i, sprint).value;
            && ApplyActions(t, pure, i + 1, sprint) == OverlayTree.ApplyAction(before, pure[i], sprint)
            && (Faithful(before, pure[i], sprint) || OnlyUpdates(pure[i]))
            && (i + 1 < |pure| || FaithfulRun(t, pure, |pure|, sprint) ==> Faithful(before, pure[i], sprint))
  {
    hide Faithful, ApplyAction;
    if i + 1 < |pure| || FaithfulRun(t, pure, |pure|, sprint) {
      FaithfulPrefix(t, pure, i + 1, if FaithfulRun(t, pure, |pure|, sprint) then |pure| else |pure| - 1, sprint);
    }
  }

  lemma {:induction false} ErrorStays(t: Json, pure: seq<Action<Json>>, m: nat, n: nat, sprint: Printer)
    requires m <= n <= |pure| && ApplyActions(t, pure, m, sprint).Err?
    ensures ApplyActions(t, pure, n, sprint) == ApplyActions(t, pure, m, sprint)
    decreases n
  {
    hide ApplyAction;
    if m < n {
      ErrorStays(t, pure, m, n - 1, sprint);
    }
  }

  lemma MatchesHoldSlots(h0: Heap, h: Heap, root: Value, t: Json, paths: seq<Path>, nodes: seq<NodeRef>,
                         reserved: set<Address>, tokens: seq<Token>)
    requires MatchesHeld(h0, h, root, t, paths, nodes, reserved)
    ensures SlotsHeld(h, root, t, paths, nodes, tokens)
    ensures Tree(h, root, t) && ReservedKept(h0, h, root, t, reserved)
  {
    forall j | 0 <= j < |paths|
      ensures IsSlot(h, root, t, paths[j], nodes[j].slot)
    {
      assert IsNode(h, root, t, paths[j], nodes[j]);
    }
  }

  lemma HeldFromHere(h0: Heap, h: Heap, root: Value, t: Json, paths: seq<Path>, nodes: seq<NodeRef>,
                     reserved: set<Address>)
    requires MatchesHeld(h0, h, root, t, paths, nodes, reserved)
    ensures MatchesHeld(h, h, root, t, paths, nodes, reserved) && ReservedKept(h0, h, root, t, reserved)
    ensures |nodes| == |paths|
  {
  }

  /** All matches are equally deep and end in the same kind of step. */
  ghost predicate SameLast(paths: seq<Path>) {
    forall i, j | 0 <= i < |paths| && 0 <= j < |paths| ::
      |paths[i]| == |paths[j]| && (paths[i] != [] && paths[j] != [] ==> Last(paths[i]).Key? == Last(paths[j]).Key?)
  }

  lemma AcceptedKind(t: Json, token: Token, s: Step, sprint: Printer)
    requires Accepts(t, token, s, sprint)
    ensures s.Key? == token.Field?
  {
  }

  lemma MatchesSameLast(t: Json, tokens: seq<Token>, sprint: Printer)
    ensures SameLast(Select(t, tokens, sprint))
  {
    hide Select, Accepts, HasPath, Get;
    var paths := Select(t, tokens, sprint);
    forall i | 0 <= i < |paths|
      ensures |paths[i]| == |tokens|
      ensures paths[i] != [] ==> Last(paths[i]).Key? == tokens[|tokens| - 1].Field?
    {
      SelectLast(t, tokens, sprint, i);
      if tokens != [] {
        AcceptedKind(Get(t, Init(paths[i])), tokens[|tokens| - 1], Last(paths[i]), sprint);
      }
    }
  }

  lemma SlotsSpared(h: Heap, root: Value, t: Json, paths: seq<Path>, nodes: seq<NodeRef>, tokens: seq<Token>)
    requires SlotsHeld(h, root, t, paths, nodes, tokens) && forall p | p in paths :: CopySpares(tokens, p)
    requires SameLast(paths)
    ensures |nodes| == |paths| && forall j | 0 <= j < |paths| :: IsSlot(h, root, t, paths[j], nodes[j].slot)
    ensures forall j | 0 <= j < |paths| :: paths[j] == [] <==> nodes[j].slot.NoSlot?
    ensures [] in paths <==> |nodes| > 0 && nodes[|nodes| - 1].slot.NoSlot?
  {
    forall j | 0 <= j < |paths|
      ensures IsSlot(h, root, t, paths[j], nodes[j].slot) && (paths[j] == [] <==> nodes[j].slot.NoSlot?)
    {
      assert paths[j] in paths;
    }
  }

  lemma RemovalSetReady(h0: Heap, h: Heap, root: Value, t: Json, paths: seq<Path>, slots: seq<Slot>,
                        reserved: set<Address>)
    requires Tree(h, root, t) && t.Obj? && |slots| == |paths| && SameLast(paths) && [] !in paths
    requires forall j | 0 <= j < |paths| :: IsSlot(h, root, t, paths[j], slots[j])
    requires ReservedKept(h0, h, root, t, reserved)
    ensures RemovalSet(h, root, t, paths, slots, reserved)
  {
  }

  /** The action, its meaning on trees, and the cells that later actions own. */
  ghost predicate ActionReady(h: Heap, root: Value, t: Json, action: Action<Value>, pure: Action<Json>,
                              reserved: set<Address>)
  {
    && Tree(h, root, t) && t.Obj?
    && action.target == pure.target && action.copyTo == pure.copyTo && action.remove == pure.remove
    && action.update.Some? == pure.update.Some?
    && (action.update.Some? ==> UpdateApart(h, root, t, action.update.value, pure.update.value, reserved))
    && (forall x | x in reserved :: x in h && !Owns(h, root, t, x))
  }

  lemma ReadyAction(h: Heap, root: Value, t: Json, action: Action<Value>, pure: Action<Json>, reserved: set<Address>)
    requires ActionReady(h, root, t, action, pure, reserved)
    ensures Tree(h, root, t) && t.Obj?
    ensures action.target == pure.target && action.copyTo == pure.copyTo && action.remove == pure.remove
    ensures OnlyUpdates(pure) <==> pure.copyTo.None? && !pure.remove
  {
  }

  lemma UntouchedStarts(h: Heap, reserved: set<Address>)
    ensures Untouched(h, h, reserved)
  {
  }

  /** The three steps of an action, one after the other. */
  lemma ActionMeans(t: Json, pure: Action<Json>, sprint: Printer)
    requires t.Obj?
    ensures Parse(pure.target).None? ==> OverlayTree.ApplyAction(t, pure, sprint) == Err(BadPath)
    ensures Parse(pure.target).Some? ==>
      var paths := Select(t, Parse(pure.target).value, sprint);
      var updated, result := UpdateStep(t, pure, paths), OverlayTree.ApplyAction(t, pure, sprint);
      && (Faithful(t, pure, sprint) && pure.update.Some? && |paths| > 1 ==> AllLeaves(pure.update.value))
      && (updated.Err? ==> result == updated)
      && (updated.Ok? ==>
            var copied := CopyStep(updated.value, pure, paths);
            && (copied.Err? ==> result == copied)
            && (copied.Ok? ==> result == RemoveStep(updated.value, copied.value, pure, paths)))
    ensures OverlayTree.ApplyAction(t, pure, sprint).Ok? ==> OverlayTree.ApplyAction(t, pure, sprint).value.Obj?
  {
    hide Parse, Select, Destination, RemoveMatches, SetPath, UpdateFirst;
  }

  /** An action that neither copies nor removes means its update. */
  lemma OnlyUpdated(h0: Heap, h: Heap, root: Value, t: Json, pure: Action<Json>, paths: seq<Path>, nodes: seq<NodeRef>,
                    reserved: set<Address>, sprint: Printer)
    requires Parse(pure.target).Some? && paths == Select(t, Parse(pure.target).value, sprint) && OnlyUpdates(pure)
    requires var updated := UpdateStep(t, pure, paths);
      && updated.Ok?
      && ((pure.update.Some? && |paths| > 1 ==> AllLeaves(pure.update.value)) ==>
            MatchesHeld(h0, h, root, updated.value, paths, nodes, reserved))
    ensures var updated := UpdateStep(t, pure, paths);
      && OverlayTree.ApplyAction(t, pure, sprint) == updated
      && (Faithful(t, pure, sprint) ==>
            Tree(h, root, updated.value) && ReservedKept(h0, h, root, updated.value, reserved))
  {
    hide Select, UpdateStep, Parse, Tree, ReservedKept;
  }

  // ---- Remove -----------------------------------------------------------------------------------------------

  /** The heap after a field has been deleted. */
  ghost predicate Deleted(h: Heap, h': Heap, root: Value, t: Json, p: Path) {
    && Tree(h, root, t) && p != [] && HasPath(t, Init(p)) && Last(p).Key? && Locate(h, root, t, Init(p)).Ref?
    && var a := Locate(h, root, t, Init(p)).address;
    a in h && h[a].Object? && h' == h[a := Object(h[a].entries - {Last(p).name})]
  }

  lemma RemovalReady(h0: Heap, h: Heap, root: Value, t0: Json, t: Json, p: Path)
    requires Pending(h0, h, root, t0, t, p)
    ensures var slot := SlotAt(h0, root, t0, p);
            match slot
            case NoSlot => false
            case FieldSlot(holder, name) =>
              && Last(p) == Key(name) && holder in h && h[holder].Object?
              && Locate(h, root, t, Init(p)) == Ref(holder)
            case ElementSlot(slice, index, parent) =>
              && Last(p) == At(index) && slice in h && slice in h0 && h[slice] == h0[slice] && h[slice].Slice?
              && index < |h[slice].elements| && Locate(h0, root, t0, Init(p)) == Ref(slice)
              && parent == SlotAt(h0, root, t0, Init(p))
  {
    var c := Init(p);
    ContainerOf(t0, p);
    SubTree(h0, root, t0, c);
    LocateExtend(h0, root, t0, c, Last(p));
    SubTree(h, root, t, c);
    if Last(p).At? {
      assert Owns(h0, Locate(h0, root, t0, c), Get(t0, c), Locate(h0, root, t0, c).address);
    }
  }

  /** The new slice goes where the old array was. */
  lemma DropWrites(h0: Heap, h: Heap, h1: Heap, root: Value, t0: Json, t: Json, p: Path, v: Value)
    requires Pending(h0, h, root, t0, t, p) && Last(p).At? && v.Ref? && v.address !in h
    requires Locate(h0, root, t0, Init(p)).Ref?
    requires var a := Locate(h0, root, t0, Init(p)).address;
             && a in h && a in h0 && h[a] == h0[a] && h[a].Slice? && Last(p).index < |h[a].elements|
             && h1 == h[v.address := Slice(DropValue(h[a].elements, Last(p).index))]
    ensures Fits(h1, SlotAt(h0, root, t0, Init(p)))
    ensures Dropped(h0, h, SetThrough(h1, SlotAt(h0, root, t0, Init(p)), v), root, t0, t, p, v.address)
  {
    var c := Init(p);
    ContainerOf(t, c);
    SlotStable(h0, h, root, t0, t, c);
    SetSlotWritesKid(h, h1, root, t, Init(c), Last(c), v);
    assert c[..|Init(c)|] == Init(c);
  }

  /** What leads to the array of a pending match can be stored to. */
  lemma PendingFits(h0: Heap, h: Heap, root: Value, t0: Json, t: Json, p: Path)
    requires Pending(h0, h, root, t0, t, p) && Last(p).At?
    ensures Fits(h, SlotAt(h0, root, t0, Init(p)))
  {
    var c := Init(p);
    ContainerOf(t, c);
    SlotStable(h0, h, root, t0, t, c);
    SetSlotWritesKid(h, h, root, t, Init(c), Last(c), root);
  }

  /** Calling the closure of a pending match is the removal that is meant. */
  lemma ClosureRemoves(h0: Heap, h: Heap, root: Value, t0: Json, t: Json, p: Path, a: Address)
    requires Pending(h0, h, root, t0, t, p) && a !in h
    ensures var slot := SlotAt(h0, root, t0, p);
            && Callable(h, slot)
            && (Last(p).Key? ==> Deleted(h, Closure(h, slot, a), root, t, p))
            && (Last(p).At? ==> Dropped(h0, h, Closure(h, slot, a), root, t0, t, p, a))
  {
    hide Dropped, SetThrough, SlotAt, Tree, Locate;
    var slot := SlotAt(h0, root, t0, p);
    RemovalReady(h0, h, root, t0, t, p);
    if Last(p).At? {
      PendingFits(h0, h, root, t0, t, p);
      DropWrites(h0, h, h[a := Slice(DropValue(h[slot.slice].elements, slot.index))], root, t0, t, p, Ref(a));
    }
  }

  lemma HighStarts(h: Heap, root: Value, t: Json, n: int)
    requires Tree(h, root, t)
    ensures HighKept(h, h, root, t, t, n)
  {
  }

  lemma RemovalKeepsHigh(h0: Heap, h: Heap, h': Heap, root: Value, t0: Json, t: Json, p: Path, a: Address, n: int)
    requires Pending(h0, h, root, t0, t, p) && HighKept(h0, h, root, t0, t, n) && n < |p|
    requires Last(p).Key? ==> Deleted(h, h', root, t, p)
    requires Last(p).At? ==> Dropped(h0, h, h', root, t0, t, p, a)
    ensures HighKept(h0, h', root, t0, RemoveOne(t0, t, p), n)
  {
    hide Tree, Owns, Locate, HasPath, Get, Put, Edited, HighKept, Dropped;
    if Last(p).Key? {
      DeleteIsEdit(h0, h, h', root, t0, t, p);
      EditKeepsHigh(h0, h, h', root, t0, t, Init(p), Last(p), Obj(Get(t, Init(p)).fields - {Last(p).name}), n);
    } else {
      var r, s := Init(Init(p)), Last(Init(p));
      DropIsEdit(h0, h, h', root, t0, t, p, a);
      EditKeepsHigh(h0, h, h', root, t0, t, r, s, WithChild(Get(t, r), s, Shortened(t0, p)), n);
    }
  }

  /** What the remove loop needs: proper matches of one path, their slots, and cells to keep clear of. */
  ghost predicate RemovalSet(h: Heap, root: Value, t: Json, paths: seq<Path>, slots: seq<Slot>,
                             reserved: set<Address>)
  {
    && Tree(h, root, t) && t.Obj? && |slots| == |paths|
    && (forall i | 0 <= i < |paths| :: paths[i] != [] && IsSlot(h, root, t, paths[i], slots[i]))
    && (forall i, j | 0 <= i < |paths| && 0 <= j < |paths| ::
          |paths[i]| == |paths[j]| && (paths[i] != [] && paths[j] != [] ==> Last(paths[i]).Key? == Last(paths[j]).Key?))
    && (forall x | x in reserved :: x in h && !Owns(h, root, t, x))
  }

  ghost predicate Removing(h0: Heap, h: Heap, root: Value, t0: Json, t: Json, paths: seq<Path>, slots: seq<Slot>,
                           n: nat, reserved: set<Address>)
  {
    && n <= |paths| && RemovalSet(h0, root, t0, paths, slots, reserved)
    && Tree(h, root, t) && ReservedKept(h0, h, root, t, reserved)
    && forall j | 0 <= j < n :: Pending(h0, h, root, t0, t, paths[j]) && slots[j] == SlotAt(h0, root, t0, paths[j])
  }

  lemma RemovalStarts(h: Heap, root: Value, t: Json, paths: seq<Path>, slots: seq<Slot>, reserved: set<Address>)
    requires RemovalSet(h, root, t, paths, slots, reserved)
    ensures Removing(h, h, root, t, t, paths, slots, |paths|, reserved)
  {
    forall j | 0 <= j < |paths|
      ensures Pending(h, h, root, t, t, paths[j])
    {
      assert IsSlot(h, root, t, paths[j], slots[j]);
      PendingStarts(h, root, t, paths[j]);
    }
  }

  lemma RemovingStep(h0: Heap, h: Heap, h': Heap, root: Value, t0: Json, t: Json, paths: seq<Path>, slots: seq<Slot>,
                     i: nat, a: Address, reserved: set<Address>)
    requires i < |paths| && Removing(h0, h, root, t0, t, paths, slots, i + 1, reserved)
    requires Pending(h0, h, root, t0, t, paths[i])
    requires Last(paths[i]).Key? ==> Deleted(h, h', root, t, paths[i])
    requires Last(paths[i]).At? ==> Dropped(h0, h, h', root, t0, t, paths[i], a)
    ensures Removing(h0, h', root, t0, RemoveOne(t0, t, paths[i]), paths, slots, i, reserved)
  {
    hide Tree, Owns, Locate, SlotAt, HasPath, Get, Put, ReservedKept, Pending, Deleted, Dropped;
    var p := paths[i];
    if Last(p).Key? {
      DeletedKeeps(h0, h, h', root, t0, t, p, reserved);
    } else {
      DroppedKeeps(h0, h, h', root, t0, t, p, a, reserved);
    }
    forall j | 0 <= j < i
      ensures Pending(h0, h', root, t0, RemoveOne(t0, t, p), paths[j])
    {
      assert |paths[i]| == |paths[j]|;
      if Last(p).Key? {
        DeletedKeepsPending(h0, h, h', root, t0, t, p, paths[j]);
      } else {
        DroppedKeepsPending(h0, h, h', root, t0, t, p, a, paths[j]);
      }
    }
  }

  lemma DeletedKeeps(h0: Heap, h: Heap, h': Heap, root: Value, t0: Json, t: Json, p: Path, reserved: set<Address>)
    requires Pending(h0, h, root, t0, t, p) && Deleted(h, h', root, t, p) && ReservedKept(h0, h, root, t, reserved)
    ensures Tree(h', root, RemoveOne(t0, t, p)) && ReservedKept(h0, h', root, RemoveOne(t0, t, p), reserved)
  {
    var node' := Obj(Get(t, Init(p)).fields - {Last(p).name});
    DeleteIsEdit(h0, h, h', root, t0, t, p);
    EditNode(h, h', root, t, Init(p), Last(p), node');
    SubTree(h, root, t, Init(p));
    assert Owns(h, Locate(h, root, t, Init(p)), Get(t, Init(p)), Locate(h, root, t, Init(p)).address);
  }

  lemma DeletedKeepsPending(h0: Heap, h: Heap, h': Heap, root: Value, t0: Json, t: Json, p: Path, q: Path)
    requires Pending(h0, h, root, t0, t, p) && Deleted(h, h', root, t, p)
    requires Pending(h0, h, root, t0, t, q) && Last(q).Key? && |q| == |p|
    ensures Pending(h0, h', root, t0, RemoveOne(t0, t, p), q)
  {
    DeleteIsEdit(h0, h, h', root, t0, t, p);
    DeleteKeepsPending(h0, h, h', root, t0, t, p, q);
  }

  lemma DroppedKeeps(h0: Heap, h: Heap, h': Heap, root: Value, t0: Json, t: Json, p: Path, a: Address,
                     reserved: set<Address>)
    requires Dropped(h0, h, h', root, t0, t, p, a) && ReservedKept(h0, h, root, t, reserved)
    requires forall x | x in reserved :: x in h0 && !Owns(h0, root, t0, x)
    ensures Tree(h', root, RemoveOne(t0, t, p)) && ReservedKept(h0, h', root, RemoveOne(t0, t, p), reserved)
  {
    var c := Init(p);
    SubTree(h, root, t, Init(c));
    assert Owns(h, Locate(h, root, t, Init(c)), Get(t, Init(c)), Locate(h, root, t, Init(c)).address);
    SubTree(h0, root, t0, c);
    DropReaches(h0, h, h', root, t0, t, p, a, a);
    forall x | x in reserved
      ensures x in h0 && x in h' && h'[x] == h0[x] && !Owns(h', root, RemoveOne(t0, t, p), x)
    {
      DropReaches(h0, h, h', root, t0, t, p, a, x);
    }
  }

  lemma DroppedKeepsPending(h0: Heap, h: Heap, h': Heap, root: Value, t0: Json, t: Json, p: Path, a: Address, q: Path)
    requires Dropped(h0, h, h', root, t0, t, p, a)
    requires Pending(h0, h, root, t0, t, q) && Last(q).At? && |q| == |p|
    ensures Pending(h0, h', root, t0, RemoveOne(t0, t, p), q)
  {
    DropKeepsPending(h0, h, h', root, t0, t, p, a, q);
  }

  // ---- Remove after a copy over containers ------------------------------------------------------------------

  /** Some match is in a container that the copy replaces. */
  ghost predicate Replaces(tokens: seq<Token>, paths: seq<Path>) {
    !forall p | p in paths :: CopySpares(tokens, p)
  }

  /** The object that holds the destination is there already. */
  ghost predicate IsWay(t: Json, tokens: seq<Token>) {
    tokens != [] && (forall k | 0 <= k < |tokens| :: tokens[k].Field?) && HasPath(t, Names(tokens, |tokens| - 1))
  }

  lemma NoWayWithoutTokens(t: Json, tokens: seq<Token>)
    requires tokens == []
    ensures !IsWay(t, tokens)
  {
  }

  /** What is at the destination after a copy. */
  ghost function Copied(t': Json, tokens: seq<Token>): Json {
    if tokens != [] && (forall k | 0 <= k < |tokens| :: tokens[k].Field?) && HasPath(t', Names(tokens, |tokens|))
    then Get(t', Names(tokens, |tokens|)) else t'
  }

  ghost function ClonedCells(g: Heap, t': Json, tokens: seq<Token>, w: Value): set<Address> {
    set x | x in g && Owns(g, w, Copied(t', tokens), x)
  }

  /** The object in which the destination is a field. */
  ghost function Holder(g: Heap, root: Value, t: Json, tokens: seq<Token>): Address {
    if IsWay(t, tokens) && Tree(g, root, t) && Locate(g, root, t, Names(tokens, |tokens| - 1)).Ref?
    then Locate(g, root, t, Names(tokens, |tokens| - 1)).address else 0
  }

  /** A copy has stored `w`, a tree of its own, in one field of the heap `g`, in which tree and matches still were as
      before the copy. */
  ghost predicate CopiedOver(h0: Heap, g: Heap, h: Heap, root: Value, t: Json, t': Json, tokens: seq<Token>, w: Value,
                             paths: seq<Path>, nodes: seq<NodeRef>, reserved: set<Address>)
  {
    && IsWay(t, tokens) && MatchesHeld(h0, g, root, t, paths, nodes, reserved)
    && var here, name, tw := Names(tokens, |tokens| - 1), tokens[|tokens| - 1].name, Copied(t', tokens);
    && Locate(g, root, t, here) == Ref(Holder(g, root, t, tokens)) && Differ(g, h, Holder(g, root, t, tokens), name, w)
    && HasPath(t', Names(tokens, |tokens|)) && Takes(Get(t, here), Key(name))
    && t' == Put(t, here, WithChild(Get(t, here), Key(name), tw))
    && Tree(g, w, tw) && forall x | Owns(g, w, tw, x) :: !Owns(g, root, t, x) && x !in reserved
  }

  lemma NotBelowMissing(t: Json, tokens: seq<Token>, i: nat)
    requires i < |tokens| && forall k | 0 <= k <= i :: tokens[k].Field?
    ensures HasPath(t, Names(tokens, i + 1)) <==>
      HasPath(t, Names(tokens, i)) && Has(Get(t, Names(tokens, i)), Key(tokens[i].name))
  {
    NamesExtend(tokens, i);
    PathExtend(t, Names(tokens, i), Key(tokens[i].name));
  }

  /** The last assignment of a copy that had nothing to create. */
  lemma CopyGoesOver(h0: Heap, g: Heap, h: Heap, root: Value, t: Json, cur: Json, tokens: seq<Token>, current: Value,
                     w: Value, tw: Json, paths: seq<Path>, nodes: seq<NodeRef>, reserved: set<Address>)
    requires tokens != [] && Walking(h0, g, root, cur, tokens, |tokens| - 1, current, paths, nodes, reserved)
    requires tokens[|tokens| - 1].Field? && Get(cur, Names(tokens, |tokens| - 1)).Obj?
    requires cur == t || !HasPath(t, Names(tokens, |tokens| - 1))
    requires current.Ref? && Differ(g, h, current.address, tokens[|tokens| - 1].name, w)
    requires Tree(g, w, tw) && forall x | Owns(g, w, tw, x) :: !Owns(g, root, cur, x) && x !in reserved
    ensures var here, name := Names(tokens, |tokens| - 1), tokens[|tokens| - 1].name;
            IsWay(t, tokens) ==>
              CopiedOver(h0, g, h, root, t, Put(cur, here, WithChild(Get(cur, here), Key(name), tw)), tokens, w,
                         paths, nodes, reserved)
  {
    hide MatchesHeld, Tree, Owns, Locate, WithChild, Put, Get, HasPath;
    if IsWay(t, tokens) {
      var here, name := Names(tokens, |tokens| - 1), tokens[|tokens| - 1].name;
      var node' := WithChild(Get(t, here), Key(name), tw);
      PutGet(t, here, node', node');
      NamesExtend(tokens, |tokens| - 1);
      PathExtend(Put(t, here, node'), here, Key(name));
      HeldIsTree(h0, g, root, t, paths, nodes, reserved);
    }
  }

  lemma HeldIsTree(h0: Heap, h: Heap, root: Value, t: Json, paths: seq<Path>, nodes: seq<NodeRef>,
                   reserved: set<Address>)
    requires MatchesHeld(h0, h, root, t, paths, nodes, reserved)
    ensures Tree(h, root, t)
  {
  }

  lemma CopiedOverFrom(h0: Heap, h1: Heap, g: Heap, h: Heap, root: Value, t: Json, t': Json, tokens: seq<Token>,
                       w: Value, paths: seq<Path>, nodes: seq<NodeRef>, reserved: set<Address>)
    requires ReservedKept(h0, h1, root, t, reserved)
    requires CopiedOver(h1, g, h, root, t, t', tokens, w, paths, nodes, reserved)
    ensures CopiedOver(h0, g, h, root, t, t', tokens, w, paths, nodes, reserved)
  {
    hide Tree, Owns, Locate, Holder, Copied;
    ReservedKeptOn(h0, h1, g, root, t, t, reserved);
  }

  /** Where the copy replaces the container of a match, all that leads to the destination is there. */
  lemma ReplacedIsWay(h0: Heap, h: Heap, root: Value, t: Json, paths: seq<Path>, nodes: seq<NodeRef>,
                      reserved: set<Address>, tokens: seq<Token>)
    requires MatchesHeld(h0, h, root, t, paths, nodes, reserved) && Replaces(tokens, paths)
    ensures IsWay(t, tokens)
  {
    var p :| p in paths && !CopySpares(tokens, p);
    var j :| 0 <= j < |paths| && paths[j] == p;
    assert IsNode(h, root, t, paths[j], nodes[j]);
    var here := Names(tokens, |tokens| - 1);
    assert here == Names(tokens, |tokens|)[..|tokens| - 1] == p[..|tokens| - 1];
    PathPrefix(t, p, |tokens| - 1);
  }

  /** The matches lie deeper than the destination. */
  lemma ReplacedAreDeep(paths: seq<Path>, tokens: seq<Token>)
    requires Replaces(tokens, paths) && SameLast(paths)
    ensures paths != [] && [] !in paths && tokens != [] && forall k | 0 <= k < |tokens| :: tokens[k].Field?
    ensures forall j | 0 <= j < |paths| :: |tokens| < |paths[j]|
  {
    var p :| p in paths && !CopySpares(tokens, p);
    var j :| 0 <= j < |paths| && paths[j] == p;
    assert forall i | 0 <= i < |paths| :: |paths[i]| == |paths[j]|;
  }

  lemma ReplacedSlots(h0: Heap, g: Heap, h: Heap, root: Value, t: Json, t': Json, tokens: seq<Token>, w: Value,
                      paths: seq<Path>, nodes: seq<NodeRef>, reserved: set<Address>)
    requires CopiedOver(h0, g, h, root, t, t', tokens, w, paths, nodes, reserved)
    requires Replaces(tokens, paths) && SameLast(paths)
    ensures paths != [] && tokens != [] && forall k | 0 <= k < |tokens| :: tokens[k].Field?
    ensures |nodes| == |paths| && forall j | 0 <= j < |paths| :: IsSlot(g, root, t, paths[j], nodes[j].slot)
    ensures [] in paths <==> |nodes| > 0 && nodes[|nodes| - 1].slot.NoSlot?
  {
    ReplacedAreDeep(paths, tokens);
    MatchesHoldSlots(h0, g, root, t, paths, nodes, reserved, []);
    assert IsNode(g, root, t, paths[|paths| - 1], nodes[|paths| - 1]);
  }

  /** The remove loop can be followed in the heap from before the copy. */
  lemma ReplacedReady(h0: Heap, g: Heap, h: Heap, root: Value, t: Json, t': Json, tokens: seq<Token>, w: Value,
                      paths: seq<Path>, nodes: seq<NodeRef>, slots: seq<Slot>, reserved: set<Address>)
    requires CopiedOver(h0, g, h, root, t, t', tokens, w, paths, nodes, reserved) && t.Obj?
    requires Replaces(tokens, paths) && SameLast(paths)
    requires |slots| == |nodes| && forall j | 0 <= j < |slots| :: slots[j] == nodes[j].slot
    ensures RemovalSet(g, root, t, paths, slots, reserved + ClonedCells(g, t', tokens, w))
    ensures Differ(g, h, Holder(g, root, t, tokens), tokens[|tokens| - 1].name, w)
    ensures forall j | 0 <= j < |slots| ::
      && slots[j] != FieldSlot(Holder(g, root, t, tokens), tokens[|tokens| - 1].name)
      && (StoresUpTo(slots[j], Holder(g, root, t, tokens), tokens[|tokens| - 1].name) <==>
            Restores(Names(tokens, |tokens|), paths[j]))
  {
    var dest, here, name := Names(tokens, |tokens|), Names(tokens, |tokens| - 1), tokens[|tokens| - 1].name;
    ReplacedSlots(h0, g, h, root, t, t', tokens, w, paths, nodes, reserved);
    ReplacedAreDeep(paths, tokens);
    NamesExtend(tokens, |tokens| - 1);
    assert Init(dest) == here && Last(dest) == Key(name);
    forall j | 0 <= j < |slots|
      ensures slots[j] != FieldSlot(Holder(g, root, t, tokens), name)
      ensures StoresUpTo(slots[j], Holder(g, root, t, tokens), name) <==> Restores(dest, paths[j])
    {
      assert IsSlot(g, root, t, paths[j], nodes[j].slot);
      StoresUpToIff(g, root, t, paths[j], dest, Holder(g, root, t, tokens), name);
    }
  }

  /** What the remove loop has made of the tree: either the copy is still in its field, or the loop has stored the
      old value there again. */
  lemma ReplacedRemoved(h0: Heap, g: Heap, h: Heap, g': Heap, h': Heap, root: Value, t: Json, t': Json,
                        tokens: seq<Token>, w: Value, paths: seq<Path>, nodes: seq<NodeRef>, slots: seq<Slot>,
                        reserved: set<Address>)
    requires CopiedOver(h0, g, h, root, t, t', tokens, w, paths, nodes, reserved) && t.Obj?
    requires Replaces(tokens, paths) && SameLast(paths)
    requires |slots| == |nodes| && forall j | 0 <= j < |slots| :: slots[j] == nodes[j].slot
    requires var removed := RemoveFirst(t, t, paths, |paths|);
      && Tree(g', root, removed)
      && ReservedKept(g, g', root, removed, reserved + ClonedCells(g, t', tokens, w))
      && HighKept(g, g', root, t, removed, |paths[0]| - 1)
    requires var holder, name := Holder(g, root, t, tokens), tokens[|tokens| - 1].name;
      if exists j | 0 <= j < |slots| :: StoresUpTo(slots[j], holder, name)
      then h' == g' else Differ(g', h', holder, name, w)
    ensures Tree(h', root, RemoveMatches(t, t', tokens, paths))
    ensures ReservedKept(h0, h', root, RemoveMatches(t, t', tokens, paths), reserved)
  {
    hide CopiedOver, Tree, Owns, ReservedKept, HighKept, RemovalSet, IsSlot, StoresUpTo, Restores, Differ, RemoveFirst,
      Holder, ClonedCells;
    var removed, dest := RemoveFirst(t, t, paths, |paths|), Names(tokens, |tokens|);
    ReplacedReady(h0, g, h, root, t, t', tokens, w, paths, nodes, slots, reserved);
    ReplacedSlots(h0, g, h, root, t, t', tokens, w, paths, nodes, reserved);
    ReplacedAreDeep(paths, tokens);
    CopyIsThere(h0, g, h, root, t, t', tokens, w, paths, nodes, reserved);
    LessKept(g, g', root, removed, reserved, ClonedCells(g, t', tokens, w));
    if j :| 0 <= j < |slots| && StoresUpTo(slots[j], Holder(g, root, t, tokens), tokens[|tokens| - 1].name) {
      assert Restores(dest, paths[j]) && paths[j] in paths;
      ReservedKeptOn(h0, g, g', root, t, removed, reserved);
    } else {
      assert forall p | p in paths :: !Restores(dest, p);
      HighLess(g, g', root, t, removed, |paths[0]| - 1, |tokens|);
      CopyStays(h0, g, h, g', h', root, t, t', removed, tokens, w, paths, nodes, reserved);
    }
  }

  lemma HighLess(h0: Heap, h: Heap, root: Value, t0: Json, t: Json, n: int, m: int)
    requires HighKept(h0, h, root, t0, t, n) && m <= n
    ensures HighKept(h0, h, root, t0, t, m)
  {
  }

  lemma LessKept(h: Heap, h': Heap, root: Value, t: Json, some: set<Address>, more: set<Address>)
    requires ReservedKept(h, h', root, t, some + more)
    ensures ReservedKept(h, h', root, t, some)
  {
  }

  lemma CopyIsThere(h0: Heap, g: Heap, h: Heap, root: Value, t: Json, t': Json, tokens: seq<Token>, w: Value,
                    paths: seq<Path>, nodes: seq<NodeRef>, reserved: set<Address>)
    requires CopiedOver(h0, g, h, root, t, t', tokens, w, paths, nodes, reserved)
    ensures IsWay(t, tokens) && tokens != [] && forall k | 0 <= k < |tokens| :: tokens[k].Field?
    ensures HasPath(t', Names(tokens, |tokens|))
    ensures Copied(t', tokens) == Get(t', Names(tokens, |tokens|))
    ensures ReservedKept(h0, g, root, t, reserved) && Tree(g, w, Copied(t', tokens))
    ensures forall x | Owns(g, w, Copied(t', tokens), x) :: x !in reserved
  {
  }

  /** A removal that never stores up to the destination leaves the copy there. */
  lemma CopyStays(h0: Heap, g: Heap, h: Heap, g': Heap, h': Heap, root: Value, t: Json, t': Json, removed: Json,
                  tokens: seq<Token>, w: Value, paths: seq<Path>, nodes: seq<NodeRef>, reserved: set<Address>)
    requires CopiedOver(h0, g, h, root, t, t', tokens, w, paths, nodes, reserved)
    requires Tree(g', root, removed) && ReservedKept(g, g', root, removed, reserved + ClonedCells(g, t', tokens, w))
    requires HighKept(g, g', root, t, removed, |tokens|)
    requires Differ(g', h', Holder(g, root, t, tokens), tokens[|tokens| - 1].name, w)
    ensures var result := StoreAt(removed, Names(tokens, |tokens|), Copied(t', tokens));
            Tree(h', root, result) && ReservedKept(h0, h', root, result, reserved)
  {
    hide *;
    CopyIsThere(h0, g, h, root, t, t', tokens, w, paths, nodes, reserved);
    DifferIs(g', h', Holder(g, root, t, tokens), tokens[|tokens| - 1].name, w);
    var here, name, tw := Names(tokens, |tokens| - 1), tokens[|tokens| - 1].name, Copied(t', tokens);
    HolderStays(h0, g, h, g', root, t, t', removed, tokens, w, paths, nodes, reserved);
    CloneKept(g, g', root, removed, t', tokens, w, reserved);
    var node := NodeRef(Locate(g', root, removed, here), NoSlot);
    WriteIsEdit(g', h', root, removed, here, node, name, w, tw);
    KeySetFollows(g', h', root, removed, here, name, w, tw, reserved);
    CopySet(g', h', root, removed, here, name, w, tw, reserved);
    LessKept(g, g', root, removed, reserved, ClonedCells(g, t', tokens, w));
    ReservedKeptOn(h0, g, g', root, t, removed, reserved);
    var result := Put(removed, here, WithChild(Get(removed, here), Key(name), tw));
    ReservedKeptOn(h0, g', h', root, removed, result, reserved);
    StoredAt(removed, tokens, tw);
  }

  lemma DifferIs(h: Heap, h': Heap, holder: Address, name: string, w: Value)
    requires Differ(h, h', holder, name, w)
    ensures holder in h && h[holder].Object? && h' == h[holder := Object(h[holder].entries[name := w])]
    ensures CellHas(h'[holder], Key(name)) && Kid(h'[holder], Key(name)) == w
  {
  }

  /** Storing at a copy destination whose object is there. */
  lemma StoredAt(t: Json, tokens: seq<Token>, v: Json)
    requires tokens != [] && forall k | 0 <= k < |tokens| :: tokens[k].Field?
    requires HasPath(t, Names(tokens, |tokens| - 1)) && Get(t, Names(tokens, |tokens| - 1)).Obj?
    ensures var here, name := Names(tokens, |tokens| - 1), tokens[|tokens| - 1].name;
            StoreAt(t, Names(tokens, |tokens|), v) == Put(t, here, WithChild(Get(t, here), Key(name), v))
  {
    hide HasPath, Get, Put, WithChild;
    NamesExtend(tokens, |tokens| - 1);
    assert Names(tokens, |tokens|)[..|tokens| - 1] == Names(tokens, |tokens| - 1);
  }

  lemma CopySet(h: Heap, h': Heap, root: Value, t: Json, p: Path, k: string, w: Value, tw: Json, reserved: set<Address>)
    requires KeySet(h, h', root, t, p, k, w, tw, reserved)
    ensures var t' := Put(t, p, WithChild(Get(t, p), Key(k), tw));
            Tree(h', root, t') && ReservedKept(h, h', root, t', reserved)
  {
  }

  /** The object that holds the destination is where it was. */
  lemma HolderStays(h0: Heap, g: Heap, h: Heap, g': Heap, root: Value, t: Json, t': Json, removed: Json,
                    tokens: seq<Token>, w: Value, paths: seq<Path>, nodes: seq<NodeRef>, reserved: set<Address>)
    requires CopiedOver(h0, g, h, root, t, t', tokens, w, paths, nodes, reserved)
    requires Tree(g', root, removed) && HighKept(g, g', root, t, removed, |tokens|)
    requires Holder(g, root, t, tokens) in g' && g'[Holder(g, root, t, tokens)].Object?
    ensures var here := Names(tokens, |tokens| - 1);
      && HasPath(removed, here) && Get(removed, here).Obj?
      && Takes(Get(removed, here), Key(tokens[|tokens| - 1].name))
      && Locate(g', root, removed, here) == Ref(Holder(g, root, t, tokens))
  {
    SubTree(g', root, removed, Names(tokens, |tokens| - 1));
  }

  /** The clone of the copy is a tree as before, apart from the rest. */
  lemma CloneKept(g: Heap, g': Heap, root: Value, removed: Json, t': Json, tokens: seq<Token>, w: Value,
                  reserved: set<Address>)
    requires Tree(g, w, Copied(t', tokens))
    requires forall x | Owns(g, w, Copied(t', tokens), x) :: x !in reserved
    requires ReservedKept(g, g', root, removed, reserved + ClonedCells(g, t', tokens, w))
    ensures Tree(g', w, Copied(t', tokens))
    ensures forall x | Owns(g', w, Copied(t', tokens), x) :: !Owns(g', root, removed, x) && x !in reserved
    ensures forall x | x in reserved :: x in g' && !Owns(g', root, removed, x)
  {
    forall x | Owns(g, w, Copied(t', tokens), x)
      ensures x in g' && g'[x] == g[x] && !Owns(g', root, removed, x)
    {
      assert x in ClonedCells(g, t', tokens, w);
    }
    Frame(g, g', w, Copied(t', tokens));
  }

  lemma RemoveStepMeans(before: Json, t: Json, pure: Action<Json>, paths: seq<Path>)
    ensures var result := RemoveStep(before, t, pure, paths);
      && (!pure.remove ==> result == Ok(t))
      && (pure.remove && [] in paths ==> result == Err(CannotRemove))
      && (pure.remove && [] !in paths ==> result == Ok(RemoveMatches(before, t, Destination(pure), paths)))
    ensures !Replaces(Destination(pure), paths) ==>
      && (forall p | p in paths :: CopySpares(Destination(pure), p))
      && RemoveMatches(before, t, Destination(pure), paths) == RemoveFirst(t, t, paths, |paths|)
  {
    hide CopySpares, RemoveFirst, Destination;
  }

  lemma KeptIsUntouched(h0: Heap, h: Heap, root: Value, t: Json, reserved: set<Address>)
    requires ReservedKept(h0, h, root, t, reserved)
    ensures Untouched(h0, h, reserved)
  {
  }

  // ---- Copy -------------------------------------------------------------------------------------------------

  lemma WalkingUntouched(h0: Heap, h: Heap, root: Value, t: Json, tokens: seq<Token>, i: nat, current: Value,
                         paths: seq<Path>, nodes: seq<NodeRef>, reserved: set<Address>)
    requires Walking(h0, h, root, t, tokens, i, current, paths, nodes, reserved)
    ensures Untouched(h0, h, reserved)
  {
  }

  lemma WalkStarts(h: Heap, root: Value, t: Json, tokens: seq<Token>, paths: seq<Path>, nodes: seq<NodeRef>,
                   reserved: set<Address>)
    requires MatchesHeld(h, h, root, t, paths, nodes, reserved)
    ensures Walking(h, h, root, t, tokens, 0, root, paths, nodes, reserved)
  {
  }

  /** What is known where the copy destination is about to be extended at `current`. */
  lemma WalkingObject(h0: Heap, h: Heap, root: Value, t: Json, tokens: seq<Token>, i: nat, current: Value,
                      paths: seq<Path>, nodes: seq<NodeRef>, reserved: set<Address>)
    requires Walking(h0, h, root, t, tokens, i, current, paths, nodes, reserved) && i < |tokens|
    ensures current.Ref? ==> current.address in h
    ensures Get(t, Names(tokens, i)).Obj? <==> current.Ref? && h[current.address].Object?
    ensures tokens[i].Field? && Get(t, Names(tokens, i)).Obj? ==>
              (CellHas(h[current.address], Key(tokens[i].name)) <==> Has(Get(t, Names(tokens, i)), Key(tokens[i].name)))
    ensures Tree(h, root, t) && HasPath(t, Names(tokens, i)) && current == Locate(h, root, t, Names(tokens, i))
  {
    SubTree(h, root, t, Names(tokens, i));
  }

  /** Going on to a field that is there. */
  lemma WalkOn(h0: Heap, h: Heap, root: Value, t: Json, tokens: seq<Token>, i: nat, current: Value,
               paths: seq<Path>, nodes: seq<NodeRef>, reserved: set<Address>)
    requires Walking(h0, h, root, t, tokens, i, current, paths, nodes, reserved) && i < |tokens| && tokens[i].Field?
    requires Has(Get(t, Names(tokens, i)), Key(tokens[i].name))
    ensures current.Ref? && current.address in h && CellHas(h[current.address], Key(tokens[i].name))
    ensures Walking(h0, h, root, t, tokens, i + 1, Kid(h[current.address], Key(tokens[i].name)), paths, nodes, reserved)
  {
    NamesExtend(tokens, i);
    PathExtend(t, Names(tokens, i), Key(tokens[i].name));
    SubTree(h, root, t, Names(tokens, i));
    LocateExtend(h, root, t, Names(tokens, i), Key(tokens[i].name));
  }

  /** Going on to a field that was missing and has been created. */
  lemma WalkInto(h0: Heap, h: Heap, h': Heap, root: Value, t: Json, tokens: seq<Token>, i: nat, current: Value,
                 child: Value, paths: seq<Path>, nodes: seq<NodeRef>, reserved: set<Address>)
    requires Walking(h0, h, root, t, tokens, i, current, paths, nodes, reserved) && i < |tokens| && tokens[i].Field?
    requires Get(t, Names(tokens, i)).Obj? && !Has(Get(t, Names(tokens, i)), Key(tokens[i].name))
    requires KeySet(h, h', root, t, Names(tokens, i), tokens[i].name, child, Obj(map[]), reserved)
    requires current.Ref? && current.address in h && h[current.address].Object?
    requires h' == h[current.address := Object(h[current.address].entries[tokens[i].name := child])]
    ensures var here, name := Names(tokens, i), tokens[i].name;
            var t' := Put(t, here, WithChild(Get(t, here), Key(name), Obj(map[])));
            Walking(h0, h', root, t', tokens, i + 1, child, paths, nodes, reserved)
  {
    var here, name := Names(tokens, i), tokens[i].name;
    var node' := WithChild(Get(t, here), Key(name), Obj(map[]));
    var t' := Put(t, here, node');
    forall j | 0 <= j < |paths|
      ensures IsNode(h', root, t', paths[j], nodes[j])
    {
      MissingStep(t, here, Key(name), paths[j]);
    }
    assert !(here + [Key(name)] <= here);
    var self := NodeRef(current, SlotAt(h, root, t, here));
    assert IsNode(h', root, t', here, self);
    PutGet(t, here, node', node');
    NamesExtend(tokens, i);
    PathExtend(t', here, Key(name));
    LocateExtend(h', root, t', here, Key(name));
  }

  /** The captured slot of a match still leads to its place. */
  ghost predicate IsSlot(h: Heap, root: Value, t: Json, p: Path, slot: Slot) {
    Tree(h, root, t) && HasPath(t, p) && slot == SlotAt(h, root, t, p)
  }

  /** The state of the walk down a copy destination, at its `i`-th token. */
  ghost predicate Walking(h0: Heap, h: Heap, root: Value, t: Json, tokens: seq<Token>, i: nat, current: Value,
                          paths: seq<Path>, nodes: seq<NodeRef>, reserved: set<Address>)
  {
    && i <= |tokens| && (forall k | 0 <= k < i :: tokens[k].Field?)
    && MatchesHeld(h0, h, root, t, paths, nodes, reserved)
    && HasPath(t, Names(tokens, i)) && current == Locate(h, root, t, Names(tokens, i))
  }

  lemma NamesExtend(tokens: seq<Token>, i: nat)
    requires i < |tokens| && forall k | 0 <= k <= i :: tokens[k].Field?
    ensures Names(tokens, i + 1) == Names(tokens, i) + [Key(tokens[i].name)]
  {
  }

  /** New cells leave trees and matches where they are. */
  lemma GrownKeeps(h: Heap, h': Heap, root: Value, t: Json, q: Path, n: NodeRef)
    requires forall x | x in h :: x in h' && h'[x] == h[x]
    requires IsNode(h, root, t, q, n)
    ensures IsNode(h', root, t, q, n)
  {
    Frame(h, h', root, t);
    FrameLocate(h, h', root, t, q);
    forall k | 0 <= k < |q|
      ensures HasPath(t, q[..k]) && Locate(h', root, t, q[..k]) == Locate(h, root, t, q[..k])
    {
      PathPrefix(t, q, k);
      FrameLocate(h, h', root, t, q[..k]);
    }
    SlotStable(h, h', root, t, t, q);
  }

  lemma GrownKeepsAll(h0: Heap, h: Heap, h': Heap, root: Value, t: Json, paths: seq<Path>, nodes: seq<NodeRef>,
                      reserved: set<Address>)
    requires forall x | x in h :: x in h' && h'[x] == h[x]
    requires MatchesHeld(h0, h, root, t, paths, nodes, reserved)
    ensures MatchesHeld(h0, h', root, t, paths, nodes, reserved)
    ensures forall x :: Owns(h', root, t, x) <==> Owns(h, root, t, x)
  {
    Frame(h, h', root, t);
    forall i | 0 <= i < |paths|
      ensures IsNode(h', root, t, paths[i], nodes[i])
    {
      GrownKeeps(h, h', root, t, paths[i], nodes[i]);
    }
  }

  /** The captured slots of the matches whose containers the copy spares still lead to their places. */
  ghost predicate SlotsHeld(h: Heap, root: Value, t: Json, paths: seq<Path>, nodes: seq<NodeRef>, tokens: seq<Token>) {
    && |nodes| == |paths|
    && forall j | 0 <= j < |paths| && CopySpares(tokens, paths[j]) :: IsSlot(h, root, t, paths[j], nodes[j].slot)
  }

  lemma WalkDone(h0: Heap, h: Heap, root: Value, t: Json, tokens: seq<Token>, current: Value, paths: seq<Path>,
                 nodes: seq<NodeRef>, reserved: set<Address>)
    requires Walking(h0, h, root, t, tokens, |tokens|, current, paths, nodes, reserved)
    ensures Tree(h, root, t) && ReservedKept(h0, h, root, t, reserved) && Untouched(h0, h, reserved)
    ensures SlotsHeld(h, root, t, paths, nodes, tokens)
  {
    forall j | 0 <= j < |paths|
      ensures IsSlot(h, root, t, paths[j], nodes[j].slot)
    {
      assert IsNode(h, root, t, paths[j], nodes[j]);
    }
  }

  lemma CopySource(h0: Heap, h: Heap, root: Value, t: Json, tokens: seq<Token>, i: nat, current: Value,
                   paths: seq<Path>, nodes: seq<NodeRef>, reserved: set<Address>)
    requires Walking(h0, h, root, t, tokens, i, current, paths, nodes, reserved) && paths != []
    ensures nodes != [] && HasPath(t, paths[0]) && Denotes(h, nodes[0].value, Get(t, paths[0]))
  {
    assert IsNode(h, root, t, paths[0], nodes[0]);
    SubTree(h, root, t, paths[0]);
    TreeDenotes(h, nodes[0].value, Get(t, paths[0]));
  }

  /** Building a new value keeps the walk where it is, and the new value shares no cell with the tree. */
  lemma WalkingGrown(h0: Heap, h: Heap, h': Heap, root: Value, t: Json, tokens: seq<Token>, i: nat, current: Value,
                     paths: seq<Path>, nodes: seq<NodeRef>, reserved: set<Address>, bound: Address, w: Value, tw: Json)
    requires Walking(h0, h, root, t, tokens, i, current, paths, nodes, reserved) && i < |tokens| && tokens[i].Field?
    requires forall x | x in h :: x < bound && x in h' && h'[x] == h[x]
    requires Tree(h', w, tw) && forall x | Owns(h', w, tw, x) :: bound <= x
    ensures Walking(h0, h', root, t, tokens, i, current, paths, nodes, reserved)
    ensures Tree(h', root, t) && HasPath(t, Names(tokens, i)) && current == Locate(h', root, t, Names(tokens, i))
    ensures current.Ref? ==> current.address in h && current.address in h' && h'[current.address] == h[current.address]
    ensures Has(Get(t, Names(tokens, i)), Key(tokens[i].name)) <==>
              current.Ref? && CellHas(h[current.address], Key(tokens[i].name))
    ensures forall x | Owns(h', w, tw, x) :: !Owns(h', root, t, x) && x !in reserved
    ensures forall x | x in reserved :: x in h' && !Owns(h', root, t, x)
  {
    GrownKeepsAll(h0, h, h', root, t, paths, nodes, reserved);
    FrameLocate(h, h', root, t, Names(tokens, i));
    SubTree(h, root, t, Names(tokens, i));
  }

  /** The last assignment of a copy keeps the slots of all matches whose container it does not replace. */
  lemma CopyKeepsSlots(h0: Heap, h: Heap, h': Heap, root: Value, t: Json, tokens: seq<Token>, current: Value,
                       w: Value, tw: Json, paths: seq<Path>, nodes: seq<NodeRef>, reserved: set<Address>)
    requires tokens != [] && Walking(h0, h, root, t, tokens, |tokens| - 1, current, paths, nodes, reserved)
    requires tokens[|tokens| - 1].Field? && Get(t, Names(tokens, |tokens| - 1)).Obj?
    requires KeySet(h, h', root, t, Names(tokens, |tokens| - 1), tokens[|tokens| - 1].name, w, tw, reserved)
    ensures var here, name := Names(tokens, |tokens| - 1), tokens[|tokens| - 1].name;
            var t' := Put(t, here, WithChild(Get(t, here), Key(name), tw));
            && SlotsHeld(h', root, t', paths, nodes, tokens) && Tree(h', root, t')
            && ReservedKept(h0, h', root, t', reserved) && Untouched(h0, h', reserved)
  {
    var here, name := Names(tokens, |tokens| - 1), tokens[|tokens| - 1].name;
    var node' := WithChild(Get(t, here), Key(name), tw);
    var t' := Put(t, here, node');
    NamesExtend(tokens, |tokens| - 1);
    forall j | 0 <= j < |paths| && CopySpares(tokens, paths[j])
      ensures IsSlot(h', root, t', paths[j], nodes[j].slot)
    {
      var p := paths[j];
      assert IsNode(h, root, t, p, nodes[j]);
      if p != [] {
        var c := p[..|p| - 1];
        PathPrefix(t, p, |p| - 1);
        assert !(here + [Key(name)] <= c);
        ContainerStays(h, h', root, t, t', here, name, c);
        if here + [Key(name)] <= p {
          assert p == here + [Key(name)];
          PutGet(t, here, node', node');
          PathExtend(t', here, Key(name));
        } else {
          assert IsNode(h', root, t', p, nodes[j]);
        }
        SlotFromContainer(h, h', root, t, t', p);
      }
    }
  }

  lemma ContainerStays(h: Heap, h': Heap, root: Value, t: Json, t': Json, here: Path, name: string, c: Path)
    requires Tree(h, root, t) && Tree(h', root, t') && HasPath(t, c) && !(here + [Key(name)] <= c)
    requires forall q, n | IsNode(h, root, t, q, n) && !(here + [Key(name)] <= q) :: IsNode(h', root, t', q, n)
    ensures HasPath(t', c)
    ensures Locate(h', root, t', c) == Locate(h, root, t, c) && SlotAt(h', root, t', c) == SlotAt(h, root, t, c)
  {
    assert IsNode(h, root, t, c, NodeRef(Locate(h, root, t, c), SlotAt(h, root, t, c)));
    assert IsNode(h', root, t', c, NodeRef(Locate(h, root, t, c), SlotAt(h, root, t, c)));
  }

  /** A slot is given by where its container is and by the slot of the container. */
  lemma SlotFromContainer(h: Heap, h': Heap, root: Value, t: Json, t': Json, p: Path)
    requires Tree(h, root, t) && Tree(h', root, t') && HasPath(t, p) && HasPath(t', p) && p != []
    requires HasPath(t, p[..|p| - 1]) && HasPath(t', p[..|p| - 1])
    requires Locate(h', root, t', p[..|p| - 1]) == Locate(h, root, t, p[..|p| - 1])
    requires SlotAt(h', root, t', p[..|p| - 1]) == SlotAt(h, root, t, p[..|p| - 1])
    ensures SlotAt(h', root, t', p) == SlotAt(h, root, t, p)
  {
  }

  lemma NodesConcat(h: Heap, root: Value, t: Json, paths: seq<Path>, nodes: seq<NodeRef>,
                    paths': seq<Path>, nodes': seq<NodeRef>)
    requires IsNodes(h, root, t, paths, nodes) && IsNodes(h, root, t, paths', nodes')
    ensures IsNodes(h, root, t, paths + paths', nodes + nodes')
  {
  }

  lemma PathsAfterStep(t: Json, paths: seq<Path>, n: nat, token: Token, sprint: Printer)
    requires AllIn(t, paths) && n < |paths|
    ensures PathsAfter(t, paths[..n + 1], token, sprint) ==
            PathsAfter(t, paths[..n], token, sprint)
            + Extensions(paths[n], StepsFor(Get(t, paths[n]), token, sprint))
  {
    assert paths[..n + 1][..n] == paths[..n];
  }

  /** The match one step below a match. */
  lemma NodeBelow(h: Heap, root: Value, t: Json, p: Path, node: NodeRef, s: Step)
    requires IsNode(h, root, t, p, node) && Has(Get(t, p), s)
    ensures node.value.Ref? && node.value.address in h && CellHas(h[node.value.address], s)
    ensures var a := node.value.address;
            IsNode(h, root, t, p + [s],
                   NodeRef(Kid(h[a], s),
                           match s case Key(name) => FieldSlot(a, name) case At(i) => ElementSlot(a, i, node.slot)))
  {
    SubTree(h, root, t, p);
    PathExtend(t, p, s);
    LocateExtend(h, root, t, p, s);
    assert (p + [s])[..|p|] == p;
  }

  /** Kids built one after the other from address `from` on: trees that share no cell. */
  ghost predicate BuiltKids(h: Heap, from: Address, c: Cell, t: Json) {
    && (forall s | CellHas(c, s) :: Has(t, s) && Tree(h, Kid(c, s), Child(t, s)))
    && (forall s, x | CellHas(c, s) && Owns(h, Kid(c, s), Child(t, s), x) :: from <= x)
    && (forall s, s', x | CellHas(c, s) && CellHas(c, s') && s != s' && Owns(h, Kid(c, s), Child(t, s), x) ::
          !Owns(h, Kid(c, s'), Child(t, s'), x))
  }

  lemma BuiltKidsExtend(h: Heap, h': Heap, from: Address, bound: Address, c: Cell, c': Cell, t: Json, s: Step)
    requires BuiltKids(h, from, c, t) && Has(t, s) && !CellHas(c, s)
    requires from <= bound && forall a | a in h :: a < bound && a in h' && h'[a] == h[a]
    requires forall s' :: CellHas(c', s') <==> CellHas(c, s') || s' == s
    requires forall s' | CellHas(c, s') :: Kid(c', s') == Kid(c, s')
    requires Tree(h', Kid(c', s), Child(t, s)) && forall x | Owns(h', Kid(c', s), Child(t, s), x) :: bound <= x
    ensures BuiltKids(h', from, c', t)
  {
    forall s' | CellHas(c, s')
      ensures Tree(h', Kid(c, s'), Child(t, s'))
      ensures forall x :: Owns(h', Kid(c, s'), Child(t, s'), x) <==> Owns(h, Kid(c, s'), Child(t, s'), x)
    {
      Frame(h, h', Kid(c, s'), Child(t, s'));
    }
  }

  /** Storing the finished kids in a new cell makes the tree. */
  lemma BuiltNode(h: Heap, h': Heap, from: Address, a: Address, c: Cell, t: Json)
    requires BuiltKids(h, from, c, t) && SameShape(c, t)
    requires from <= a && forall x | x in h :: x < a
    requires h' == h[a := c]
    ensures Tree(h', Ref(a), t) && forall x | Owns(h', Ref(a), t, x) :: from <= x
  {
    forall s | Has(t, s)
      ensures Tree(h', Kid(c, s), Child(t, s))
      ensures forall x :: Owns(h', Kid(c, s), Child(t, s), x) <==> Owns(h, Kid(c, s), Child(t, s), x)
    {
      Frame(h, h', Kid(c, s), Child(t, s));
    }
  }

  // ---- The code ---------------------------------------------------------------------------------------------

  class Engine {
    var heap: Heap
    /** No cell at or above this address. */
    var next: Address
    const sprint: Printer

    constructor (heap: Heap, next: Address, sprint: Printer)
      requires forall a | a in heap :: a < next
      ensures Valid() && this.heap == heap && this.sprint == sprint
    {
      this.heap, this.next, this.sprint := heap, next, sprint;
    }

    ghost predicate Valid()
      reads this
    {
      forall a | a in heap :: a < next
    }

    /** Nothing that was in the heap has changed. */
    twostate predicate Grown()
      reads this
    {
      && old(next) <= next
      && forall a | a in old(heap) :: a in heap && heap[a] == old(heap)[a]
    }

    /** `json.Marshal`, or any other deep read of a value. */
    method Read(v: Value, ghost t: Json) returns (j: Json)
      requires Denotes(heap, v, t)
      ensures j == t
      decreases t, 1
    {
      match v
      case Plain(scalar) => j := Leaf(scalar);
      case Ref(a) =>
        match heap[a] {
          case Object(entries) =>
            var fields := ReadEntries(a, entries, t);
            j := Obj(fields);
          case Slice(elements) =>
            var items: seq<Json> := [];
            for i := 0 to |elements|
              invariant |items| == i && forall k | 0 <= k < i :: Has(t, At(k)) && items[k] == Child(t, At(k))
            {
              assert Has(t, At(i)) && Kid(heap[a], At(i)) == elements[i];
              var item := Read(elements[i], Child(t, At(i)));
              items := items + [item];
            }
            assert !Has(t, At(|t.items|)) && !CellHas(heap[a], At(|elements|));
            assert |t.items| == |elements|;
            j := Arr(items);
        }
    }

    method ReadEntries(a: Address, entries: map<string, Value>, ghost t: Json) returns (fields: map<string, Json>)
      requires a in heap && heap[a] == Object(entries) && Denotes(heap, Ref(a), t)
      ensures t.Obj? && fields == t.fields
      decreases t, 0
    {
      fields := map[];
      var rest := entries.Keys;
      assert forall k :: k in entries.Keys <==> CellHas(heap[a], Key(k));
      assert forall k :: k in t.fields <==> Has(t, Key(k));
      while rest != {}
        invariant rest <= entries.Keys
        invariant fields.Keys == entries.Keys - rest
        invariant forall k | k in fields :: Has(t, Key(k)) && fields[k] == Child(t, Key(k))
        decreases rest
      {
        var k :| k in rest;
        assert Has(t, Key(k)) && Kid(heap[a], Key(k)) == entries[k];
        var field := Read(entries[k], Child(t, Key(k)));
        fields := fields[k := field];
        rest := rest - {k};
      }
    }

    method Allocate(cell: Cell) returns (v: Value)
      requires Valid()
      modifies this
      ensures Valid() && Grown() && v == Ref(old(next)) && v.address !in old(heap)
      ensures heap == old(heap)[v.address := cell]
    {
      heap := heap[next := cell];
      v := Ref(next);
      next := next + 1;
    }

    /** `json.Unmarshal`: a value made of new cells only. */
    method Build(j: Json) returns (v: Value)
      requires Valid()
      modifies this
      ensures Valid() && Grown()
      ensures Tree(heap, v, j) && forall x | Owns(heap, v, j, x) :: old(next) <= x
      decreases j
    {
      match j
      case Leaf(scalar) =>
        v := Plain(scalar);
      case Obj(fields) =>
        var entries: map<string, Value> := map[];
        var rest := fields.Keys;
        while rest != {}
          invariant rest <= fields.Keys && entries.Keys == fields.Keys - rest
          invariant Valid() && Grown() && BuiltKids(heap, old(next), Object(entries), j)
          decreases rest
        {
          var k :| k in rest;
          ghost var before, bound := heap, next;
          var entry := Build(fields[k]);
          BuiltKidsExtend(before, heap, old(next), bound, Object(entries), Object(entries[k := entry]), j, Key(k));
          entries := entries[k := entry];
          rest := rest - {k};
        }
        BuiltNode(heap, heap[next := Object(entries)], old(next), next, Object(entries), j);
        v := Allocate(Object(entries));
      case Arr(items) =>
        var elements: seq<Value> := [];
        for i := 0 to |items|
          invariant |elements| == i
          invariant Valid() && Grown() && BuiltKids(heap, old(next), Slice(elements), j)
        {
          ghost var before, bound := heap, next;
          var element := Build(items[i]);
          BuiltKidsExtend(before, heap, old(next), bound, Slice(elements), Slice(elements + [element]), j, At(i));
          elements := elements + [element];
        }
        BuiltNode(heap, heap[next := Slice(elements)], old(next), next, Slice(elements), j);
        v := Allocate(Slice(elements));
    }

    /** The `apply` method of a token, on the nodes found so far. */
    method ApplyToken(token: Token, nodes: seq<NodeRef>, ghost root: Value, ghost t: Json, ghost paths: seq<Path>)
      returns (results: seq<NodeRef>)
      requires Tree(heap, root, t) && AllIn(t, paths) && IsNodes(heap, root, t, paths, nodes)
      ensures IsNodes(heap, root, t, PathsAfter(t, paths, token, sprint), results)
    {
      hide Tree, Owns, SlotAt, Locate, IsNode, HasPath, Get, StepsFor;
      results := [];
      for n := 0 to |nodes|
        invariant IsNodes(heap, root, t, PathsAfter(t, paths[..n], token, sprint), results)
      {
        PathsAfterStep(t, paths, n, token, sprint);
        var found := StepFrom(token, nodes[n], root, t, paths[n]);
        NodesConcat(heap, root, t, PathsAfter(t, paths[..n], token, sprint), results,
                    Extensions(paths[n], StepsFor(Get(t, paths[n]), token, sprint)), found);
        results := results + found;
      }
      assert paths[..|nodes|] == paths;
    }

    /** What one token takes from one node. */
    method StepFrom(token: Token, node: NodeRef, ghost root: Value, ghost t: Json, ghost p: Path)
      returns (found: seq<NodeRef>)
      requires IsNode(heap, root, t, p, node)
      ensures var steps := StepsFor(Get(t, p), token, sprint);
              IsNodes(heap, root, t, Extensions(p, steps), found)
    {
      found := [];
      SubTree(heap, root, t, p);
      if node.value.Plain? {
        return;
      }
      var a := node.value.address;
      match token
      case Field(name) =>
        if CellHas(heap[a], Key(name)) {
          assert Has(Get(t, p), Key(name));
          NodeBelow(heap, root, t, p, node, Key(name));
          found := [NodeRef(heap[a].entries[name], FieldSlot(a, name))];
        } else {
          assert !Has(Get(t, p), Key(name));
        }
      case Index(index) =>
        if index >= 0 && CellHas(heap[a], At(index)) {
          assert Has(Get(t, p), At(index));
          NodeBelow(heap, root, t, p, node, At(index));
          found := [NodeRef(heap[a].elements[index], ElementSlot(a, index, node.slot))];
        } else if index >= 0 {
          assert !Has(Get(t, p), At(index));
        }
      case Filter(field, value) =>
        if heap[a].Slice? {
          found := Filtered(field, value, node, root, t, p);
        }
    }

    /** The loop of a filter over the items of one array. */
    method Filtered(field: string, value: string, node: NodeRef, ghost root: Value, ghost t: Json, ghost p: Path)
      returns (found: seq<NodeRef>)
      requires IsNode(heap, root, t, p, node) && Get(t, p).Arr?
      requires node.value.Ref? && node.value.address in heap && heap[node.value.address].Slice?
      ensures var steps := FilterSteps(Get(t, p).items, |Get(t, p).items|, field, value, sprint);
              IsNodes(heap, root, t, Extensions(p, steps), found)
    {
      var a := node.value.address;
      var elements := heap[a].elements;
      ghost var items := Get(t, p).items;
      SubTree(heap, root, t, p);
      assert |elements| == |items| by {
        assert !Has(Get(t, p), At(|items|)) && !CellHas(heap[a], At(|elements|));
      }
      found := [];
      for i := 0 to |elements|
        invariant IsNodes(heap, root, t, Extensions(p, FilterSteps(items, i, field, value, sprint)), found)
      {
        assert CellHas(heap[a], At(i)) && Has(Get(t, p), At(i));
        var selected := IsSelected(elements[i], items[i], field, value);
        if selected {
          NodeBelow(heap, root, t, p, node, At(i));
          found := found + [NodeRef(elements[i], ElementSlot(a, i, node.slot))];
        }
      }
    }

    /** The test of a filter on one array item. */
    method IsSelected(item: Value, ghost t: Json, field: string, value: string) returns (selected: bool)
      requires Tree(heap, item, t)
      ensures selected == Selected(t, field, value, sprint)
    {
      if item.Plain? || !heap[item.address].Object? {
        return false;
      }
      var cell := heap[item.address];
      if CellHas(cell, Key(field)) {
        assert Has(t, Key(field));
        TreeDenotes(heap, Kid(cell, Key(field)), Child(t, Key(field)));
        var j := Read(cell.entries[field], Child(t, Key(field)));
        selected := sprint(j) == value;
      } else {
        assert !Has(t, Key(field));
        selected := sprint(Leaf(Null)) == value;
      }
    }

    method FindMatches(root: Value, tokens: seq<Token>, ghost t: Json) returns (current: seq<NodeRef>)
      requires Tree(heap, root, t)
      ensures IsNodes(heap, root, t, Select(t, tokens, sprint), current)
    {
      current := [NodeRef(root, NoSlot)];
      for i := 0 to |tokens|
        invariant IsNodes(heap, root, t, Select(t, tokens[..i], sprint), current)
      {
        assert tokens[..i + 1][..i] == tokens[..i] && tokens[..i + 1][i] == tokens[i];
        current := ApplyToken(tokens[i], current, root, t, Select(t, tokens[..i], sprint));
      }
      assert tokens[..|tokens|] == tokens;
    }

    /** `object[key] = value`, for a value that shares no cell with the tree. */
    method SetKey(node: NodeRef, k: string, w: Value, ghost root: Value, ghost t: Json, ghost p: Path, ghost tw: Json,
                  ghost reserved: set<Address>)
      requires Valid() && Tree(heap, root, t) && HasPath(t, p) && Get(t, p).Obj?
      requires node.value == Locate(heap, root, t, p) && node.value.Ref?
      requires node.value.address in heap && heap[node.value.address].Object?
      requires Tree(heap, w, tw) && forall x | Owns(heap, w, tw, x) :: !Owns(heap, root, t, x) && x !in reserved
      requires forall x | x in reserved :: x in heap && !Owns(heap, root, t, x)
      modifies this
      ensures Valid() && next == old(next)
      ensures heap == old(heap)[node.value.address := Object(old(heap)[node.value.address].entries[k := w])]
      ensures KeySet(old(heap), heap, root, t, p, k, w, tw, reserved)
    {
      var a := node.value.address;
      KeyWritten(heap, heap[a := Object(heap[a].entries[k := w])], root, t, p, node, k, w, tw, reserved);
      heap := heap[a := Object(heap[a].entries[k := w])];
    }

    /** The assignments of one update to one match, in whatever order the map is walked. */
    method UpdateMatch(node: NodeRef, update: map<string, Value>)
      requires Valid() && node.value.Ref? && node.value.address in heap && heap[node.value.address].Object?
      modifies this
      ensures Valid() && next == old(next) && heap == Assigned(old(heap), node.value.address, update)
    {
      var a := node.value.address;
      AssignedNothing(heap, a, update);
      var rest := update.Keys;
      while rest != {}
        invariant rest <= update.Keys && Valid() && next == old(next)
        invariant heap == Assigned(old(heap), a, Only(update, update.Keys - rest))
        decreases rest
      {
        var k :| k in rest;
        AssignedMore(old(heap), a, update, update.Keys - rest, k);
        assert update.Keys - rest + {k} == update.Keys - (rest - {k});
        heap := heap[a := Object(heap[a].entries[k := update[k]])];
        rest := rest - {k};
      }
      assert Only(update, update.Keys - {}) == update;
    }

    /** The update loop over the matches; false where `Apply` returns an error. The result reads as it should. It is
        a tree again, with the matches where they were, unless an object or array went to several matches. */
    method UpdateAll(nodes: seq<NodeRef>, update: map<string, Value>, ghost root: Value, ghost t: Json,
                     ghost paths: seq<Path>, ghost trees: map<string, Json>, ghost reserved: set<Address>)
      returns (ok: bool)
      requires Valid() && Tree(heap, root, t) && IsNodes(heap, root, t, paths, nodes) && AllUnrelated(paths)
      requires UpdateApart(heap, root, t, update, trees, reserved)
      modifies this
      ensures Valid() && next == old(next)
      ensures Untouched(old(heap), heap, reserved)
      ensures var result := UpdateFirst(t, paths, |paths|, trees);
              && ok == result.Ok?
              && (ok ==> Denotes(heap, root, result.value))
              && (ok && (|paths| > 1 ==> AllPlain(update)) ==>
                    MatchesHeld(old(heap), heap, root, result.value, paths, nodes, reserved))
    {
      hide *;
      ghost var before := heap;
      NodesAreIn(before, root, t, paths, nodes);
      UpdateStarts(before, t, paths, nodes, update, trees);
      for i := 0 to |nodes|
        invariant Valid() && next == old(next) && heap == Written(before, nodes, i, update)
        invariant UpdateFirst(t, paths, i, trees).Ok?
      {
        NextMatch(before, root, t, paths, nodes, i, update, trees);
        if nodes[i].value.Plain? || !heap[nodes[i].value.address].Object? {
          UpdateFails(t, paths, i + 1, |paths|, trees);
          WrittenUntouched(before, root, t, paths, nodes, i, update, trees, reserved);
          return false;
        }
        UpdateMatch(nodes[i], update);
      }
      AllWritten(before, root, t, paths, nodes, update, trees, reserved);
      ok := true;
    }

    /** `setPath`: false where it returns an error. */
    method CopyTo(root: Value, tokens: seq<Token>, value: Value, ghost t: Json, ghost paths: seq<Path>,
                  ghost nodes: seq<NodeRef>, ghost reserved: set<Address>)
      returns (ok: bool, ghost twin: Heap, ghost clone: Value)
      requires Valid() && MatchesHeld(heap, heap, root, t, paths, nodes, reserved)
      requires paths != [] && nodes != [] && nodes[0].value == value
      modifies this
      ensures Valid() && old(next) <= next && Untouched(old(heap), heap, reserved)
      ensures var result := SetPath(t, tokens, 0, paths[0]);
              && (ok <==> result.Ok?) && (result.Err? ==> result.error == BadDestination)
              && (ok ==>
                    && Tree(heap, root, result.value) && ReservedKept(old(heap), heap, root, result.value, reserved)
                    && SlotsHeld(heap, root, result.value, paths, nodes, tokens))
              && (ok && IsWay(t, tokens) ==>
                    CopiedOver(old(heap), twin, heap, root, t, result.value, tokens, clone, paths, nodes, reserved))
    {
      hide MatchesHeld, Tree, Owns, Locate, SlotAt, HasPath, Get, Put, IsNode, KeySet, Walking, ReservedKept, SlotsHeld,
        CopiedOver, IsWay;
      twin, clone := heap, root;
      ghost var cur := t;
      var current := root;
      WalkStarts(heap, root, t, tokens, paths, nodes, reserved);
      for i := 0 to |tokens|
        invariant Valid() && old(next) <= next
        invariant forall k | 0 <= k < i :: tokens[k].Field?
        invariant Walking(old(heap), heap, root, cur, tokens, i, current, paths, nodes, reserved)
        invariant SetPath(t, tokens, 0, paths[0]) == SetPath(cur, tokens, i, paths[0])
        invariant cur == t || !HasPath(t, Names(tokens, i))
        invariant i < |tokens| || tokens == []
      {
        WalkingUntouched(old(heap), heap, root, cur, tokens, i, current, paths, nodes, reserved);
        if !tokens[i].Field? {
          return false, twin, clone;
        }
        WalkingObject(old(heap), heap, root, cur, tokens, i, current, paths, nodes, reserved);
        if current.Plain? || !heap[current.address].Object? {
          return false, twin, clone;
        }
        ghost var here, name := Names(tokens, i), tokens[i].name;
        NotBelowMissing(t, tokens, i);
        if i == |tokens| - 1 {
          CopySource(old(heap), heap, root, cur, tokens, i, current, paths, nodes, reserved);
          var copy := Read(value, Get(cur, paths[0]));
          ghost var before, bound := heap, next;
          var cloned := Build(copy);
          WalkingGrown(old(heap), before, heap, root, cur, tokens, i, current, paths, nodes, reserved, bound, cloned,
                       copy);
          ghost var grown := heap;
          SetKey(NodeRef(current, NoSlot), tokens[i].name, cloned, root, cur, here, copy, reserved);
          CopyKeepsSlots(old(heap), grown, heap, root, cur, tokens, current, cloned, copy, paths, nodes, reserved);
          CopyGoesOver(old(heap), grown, heap, root, t, cur, tokens, current, cloned, copy, paths, nodes, reserved);
          return true, grown, cloned;
        }
        if CellHas(heap[current.address], Key(tokens[i].name)) {
          WalkOn(old(heap), heap, root, cur, tokens, i, current, paths, nodes, reserved);
          current := heap[current.address].entries[tokens[i].name];
        } else {
          ghost var before, bound := heap, next;
          var child := Build(Obj(map[]));
          WalkingGrown(old(heap), before, heap, root, cur, tokens, i, current, paths, nodes, reserved, bound, child,
                       Obj(map[]));
          ghost var grown := heap;
          SetKey(NodeRef(current, NoSlot), tokens[i].name, child, root, cur, here, Obj(map[]), reserved);
          WalkInto(old(heap), grown, heap, root, cur, tokens, i, current, child, paths, nodes, reserved);
          cur := Put(cur, here, WithChild(Get(cur, here), Key(name), Obj(map[])));
          current := child;
        }
      }
      WalkDone(old(heap), heap, root, cur, tokens, current, paths, nodes, reserved);
      NoWayWithoutTokens(t, tokens);
      ok := true;
    }

    /** A `set` closure. */
    method SetSlot(slot: Slot, v: Value)
      requires Valid() && Fits(heap, slot)
      modifies this
      ensures Valid() && next == old(next) && heap == SetThrough(old(heap), slot, v)
      decreases slot
    {
      match slot
      case NoSlot =>
      case FieldSlot(holder, name) =>
        heap := heap[holder := Object(heap[holder].entries[name := v])];
      case ElementSlot(slice, index, parent) =>
        FitsStays(heap, slice, index, v, parent);
        heap := heap[slice := Slice(heap[slice].elements[index := v])];
        SetSlot(parent, Ref(slice));
    }

    /** A `remove` closure. */
    method RemoveMatch(slot: Slot)
      requires Valid() && Callable(heap, slot)
      modifies this
      ensures Valid() && old(next) <= next
      ensures old(next) !in old(heap) && heap == Closure(old(heap), slot, old(next))
    {
      match slot
      case FieldSlot(holder, name) =>
        heap := heap[holder := Object(heap[holder].entries - {name})];
      case ElementSlot(slice, index, parent) =>
        FitsGrown(heap, next, Slice(DropValue(heap[slice].elements, index)), parent);
        var updated := Allocate(Slice(DropValue(heap[slice].elements, index)));
        SetSlot(parent, updated);
    }

    /** The remove loop, last match first. It is followed in the heap `start`, of which the heap may differ in the one
        field that a copy has just overwritten; `twin` is how that heap ends. The two agree from the first array on
        that is stored again up to this field. */
    method RemoveAll(slots: seq<Slot>, ghost root: Value, ghost t0: Json, ghost paths: seq<Path>,
                     ghost reserved: set<Address>, ghost start: Heap, ghost holder: Address, ghost name: string,
                     ghost w: Value, ghost together: bool)
      returns (ghost twin: Heap)
      requires Valid() && RemovalSet(start, root, t0, paths, slots, reserved)
      requires if together then heap == start
               else
                 && Differ(start, heap, holder, name, w)
                 && forall j | 0 <= j < |slots| :: slots[j] != FieldSlot(holder, name)
      modifies this
      ensures Valid() && old(next) <= next
      ensures var t' := RemoveFirst(t0, t0, paths, |paths|);
              && Tree(twin, root, t') && ReservedKept(start, twin, root, t', reserved)
              && HighKept(start, twin, root, t0, t', if paths == [] then 0 else |paths[0]| - 1)
      ensures if together || exists j | 0 <= j < |slots| :: StoresUpTo(slots[j], holder, name)
              then heap == twin else Differ(twin, heap, holder, name, w)
    {
      hide Tree, Owns, Locate, SlotAt, HasPath, Get, Put, ReservedKept, Pending, RemoveOne, Deleted, Dropped, Callable,
        Closure, StoresUpTo, HighKept;
      ghost var cur := t0;
      twin := start;
      RemovalStarts(start, root, t0, paths, slots, reserved);
      ghost var high := if paths == [] then 0 else |paths[0]| - 1;
      HighStarts(start, root, t0, high);
      ghost var synced := together;
      var i := |slots|;
      while i > 0
        invariant 0 <= i <= |slots| && Valid() && old(next) <= next
        invariant Removing(start, twin, root, t0, cur, paths, slots, i, reserved)
        invariant HighKept(start, twin, root, t0, cur, high)
        invariant RemoveFirst(t0, t0, paths, |paths|) == RemoveFirst(t0, cur, paths, i)
        invariant if synced then heap == twin else Differ(twin, heap, holder, name, w)
        invariant synced <==> together || exists j | i <= j < |slots| :: StoresUpTo(slots[j], holder, name)
      {
        i := i - 1;
        ghost var before := twin;
        ghost var p, a := paths[i], next;
        assert a !in heap && a !in twin;
        ClosureRemoves(start, twin, root, t0, cur, p, a);
        assert slots[i] == SlotAt(start, root, t0, p);
        if !synced {
          ClosureDiffer(twin, heap, slots[i], a, holder, name, w);
        }
        RemoveMatch(slots[i]);
        twin := Closure(before, slots[i], a);
        RemovingStep(start, before, twin, root, t0, cur, paths, slots, i, a, reserved);
        RemovalKeepsHigh(start, before, twin, root, t0, cur, p, a, high);
        cur := RemoveOne(t0, cur, p);
        synced := synced || StoresUpTo(slots[i], holder, name);
      }
    }

    method UpdatePhase(action: Action<Value>, matches: seq<NodeRef>, ghost root: Value, ghost t: Json,
                       ghost pure: Action<Json>, ghost paths: seq<Path>, ghost reserved: set<Address>)
      returns (error: Option<OverlayError>)
      requires Valid() && ActionReady(heap, root, t, action, pure, reserved)
      requires IsNodes(heap, root, t, paths, matches) && AllUnrelated(paths)
      modifies this
      ensures Valid() && old(next) <= next && Untouched(old(heap), heap, reserved)
      ensures var result := UpdateStep(t, pure, paths);
              && (result.Err? ==> error == Some(result.error))
              && (result.Ok? ==> error == None && result.value.Obj? && Denotes(heap, root, result.value))
              && (result.Ok? && (pure.update.Some? && |paths| > 1 ==> AllLeaves(pure.update.value)) ==>
                    MatchesHeld(old(heap), heap, root, result.value, paths, matches, reserved))
    {
      if action.update.None? {
        TreeDenotes(heap, root, t);
        return None;
      }
      var ok := UpdateAll(matches, action.update.value, root, t, paths, pure.update.value, reserved);
      return if ok then None else Some(UpdateOfNonObject);
    }

    method CopyPhase(action: Action<Value>, matches: seq<NodeRef>, root: Value, ghost h0: Heap, ghost t: Json,
                     ghost pure: Action<Json>, ghost paths: seq<Path>, ghost reserved: set<Address>)
      returns (error: Option<OverlayError>, ghost twin: Heap, ghost clone: Value)
      requires Valid() && MatchesHeld(h0, heap, root, t, paths, matches, reserved) && t.Obj?
      requires action.copyTo == pure.copyTo
      modifies this
      ensures Valid() && old(next) <= next && Untouched(h0, heap, reserved)
      ensures var result := CopyStep(t, pure, paths);
              && (result.Err? ==> error == Some(result.error))
              && (result.Ok? ==>
                    && error == None && result.value.Obj? && Tree(heap, root, result.value)
                    && ReservedKept(h0, heap, root, result.value, reserved)
                    && SlotsHeld(heap, root, result.value, paths, matches, Destination(pure))
                    && (IsWay(t, Destination(pure)) ==>
                          CopiedOver(h0, twin, heap, root, t, result.value, Destination(pure), clone, paths, matches,
                                     reserved)))
    {
      twin, clone := heap, root;
      if action.copyTo.None? {
        MatchesHoldSlots(h0, heap, root, t, paths, matches, reserved, []);
        NoWayWithoutTokens(t, []);
        return None, twin, clone;
      }
      var tokens := ParseJsonPath(action.copyTo.value);
      if tokens.None? {
        return Some(BadPath), twin, clone;
      }
      if |matches| == 0 {
        return Some(NoCopySource), twin, clone;
      }
      HeldFromHere(h0, heap, root, t, paths, matches, reserved);
      ghost var before := heap;
      var ok: bool;
      ok, twin, clone := CopyTo(root, tokens.value, matches[0].value, t, paths, matches, reserved);
      if !ok {
        return Some(BadDestination), twin, clone;
      }
      ghost var copied := CopyStep(t, pure, paths).value;
      ReservedKeptOn(h0, before, heap, root, t, copied, reserved);
      if IsWay(t, tokens.value) {
        CopiedOverFrom(h0, before, twin, heap, root, t, copied, tokens.value, clone, paths, matches, reserved);
      }
      return None, twin, clone;
    }

    method RemovePhase(action: Action<Value>, matches: seq<NodeRef>, ghost root: Value, ghost h0: Heap,
                       ghost before: Json, ghost t: Json, ghost pure: Action<Json>, ghost paths: seq<Path>,
                       ghost reserved: set<Address>, ghost twin: Heap, ghost clone: Value)
      returns (error: Option<OverlayError>)
      requires Valid() && Tree(heap, root, t) && t.Obj? && before.Obj? && ReservedKept(h0, heap, root, t, reserved)
      requires SlotsHeld(heap, root, t, paths, matches, Destination(pure)) && SameLast(paths)
      requires action.remove == pure.remove
      requires Replaces(Destination(pure), paths) ==>
        CopiedOver(h0, twin, heap, root, before, t, Destination(pure), clone, paths, matches, reserved)
      modifies this
      ensures Valid() && old(next) <= next && Untouched(h0, heap, reserved)
      ensures var result := RemoveStep(before, t, pure, paths);
              && (result.Err? ==> error == Some(result.error))
              && (result.Ok? ==>
                    && error == None && Tree(heap, root, result.value)
                    && ReservedKept(h0, heap, root, result.value, reserved))
    {
      hide *;
      RemoveStepMeans(before, t, pure, paths);
      KeptIsUntouched(h0, heap, root, t, reserved);
      if !action.remove {
        return None;
      }
      ghost var tokens := Destination(pure);
      ghost var start, tree, keep, holder, name := heap, t, reserved, 0, "";
      if Replaces(tokens, paths) {
        ReplacedSlots(h0, twin, heap, root, before, t, tokens, clone, paths, matches, reserved);
        start, tree, keep := twin, before, reserved + ClonedCells(twin, t, tokens, clone);
        holder, name := Holder(twin, root, before, tokens), tokens[|tokens| - 1].name;
      } else {
        SlotsSpared(heap, root, t, paths, matches, tokens);
      }
      // Only the root has no `remove` closure, and then it is the only match.
      if |matches| > 0 && matches[|matches| - 1].slot.NoSlot? {
        assert paths[|paths| - 1] in paths;
        return Some(CannotRemove);
      }
      var slots := seq(|matches|, i requires 0 <= i < |matches| => matches[i].slot);
      if Replaces(tokens, paths) {
        ReplacedReady(h0, twin, heap, root, before, t, tokens, clone, paths, matches, slots, reserved);
      } else {
        RemovalSetReady(h0, heap, root, t, paths, slots, reserved);
      }
      ghost var entered := heap;
      ghost var end := RemoveAll(slots, root, tree, paths, keep, start, holder, name, clone, !Replaces(tokens, paths));
      if Replaces(tokens, paths) {
        ReplacedRemoved(h0, twin, entered, end, heap, root, before, t, tokens, clone, paths, matches, slots, reserved);
      } else {
        ReservedKeptOn(h0, entered, heap, root, t, RemoveStep(before, t, pure, paths).value, reserved);
      }
      KeptIsUntouched(h0, heap, root, RemoveStep(before, t, pure, paths).value, reserved);
      return None;
    }

    /** One round of the action loop of `Apply`. */
    method ApplyAction(action: Action<Value>, root: Value, ghost t: Json, ghost pure: Action<Json>,
                       ghost reserved: set<Address>)
      returns (error: Option<OverlayError>)
      requires Valid() && ActionReady(heap, root, t, action, pure, reserved)
      requires Faithful(t, pure, sprint) || OnlyUpdates(pure)
      modifies this
      ensures Valid() && old(next) <= next && Untouched(old(heap), heap, reserved)
      ensures var result := OverlayTree.ApplyAction(t, pure, sprint);
              && OverlayMeaning.Does(t, pure, sprint, result)
              && (result.Err? ==> error == Some(result.error))
              && (result.Ok? ==> error == None && result.value.Obj? && Denotes(heap, root, result.value))
              && (result.Ok? && Faithful(t, pure, sprint) ==>
                    && Tree(heap, root, result.value)
                    && ReservedKept(old(heap), heap, root, result.value, reserved))
    {
      hide *;
      ReadyAction(heap, root, t, action, pure, reserved);
      ActionMeans(t, pure, sprint);
      OverlayMeaning.ActionDoes(t, pure, sprint);
      var tokens := ParseJsonPath(action.target);
      if tokens.None? {
        UntouchedStarts(heap, reserved);
        return Some(BadPath);
      }
      var matches := FindMatches(root, tokens.value, t);
      ghost var paths := Select(t, tokens.value, sprint);
      MatchesUnrelated(t, tokens.value, sprint);
      MatchesSameLast(t, tokens.value, sprint);
      error := UpdatePhase(action, matches, root, t, pure, paths, reserved);
      if error.Some? {
        return;
      }
      if action.copyTo.None? && !action.remove {
        OnlyUpdated(old(heap), heap, root, t, pure, paths, matches, reserved, sprint);
        return;
      }
      ghost var updated := UpdateStep(t, pure, paths).value;
      if Replaces(Destination(pure), paths) {
        ReplacedIsWay(old(heap), heap, root, updated, paths, matches, reserved, Destination(pure));
      }
      ghost var twin: Heap, clone: Value;
      error, twin, clone := CopyPhase(action, matches, root, old(heap), updated, pure, paths, reserved);
      if error.Some? {
        return;
      }
      ghost var copied := CopyStep(updated, pure, paths).value;
      error := RemovePhase(action, matches, root, old(heap), updated, copied, pure, paths, reserved, twin, clone);
      if error.None? {
        TreeDenotes(heap, root, RemoveStep(updated, copied, pure, paths).value);
      }
    }

    /** `Apply`: a copy of `base` is rewritten by the actions in order. The result is the tree that the actions mean,
        and no cell is changed that was there before, except in values that some update assigns. */
    method Apply(base: Value, actions: seq<Action<Value>>, ghost baseTree: Json, ghost pure: seq<Action<Json>>)
      returns (result: Result<Value, OverlayError>)
      requires Valid() && Denotes(heap, base, baseTree) && baseTree.Obj?
      requires DocumentIs(heap, actions, pure) && FaithfulDocument(baseTree, pure, sprint)
      modifies this
      ensures var meaning := ApplyActions(baseTree, pure, |pure|, sprint);
              && OverlayMeaning.DoesAll(baseTree, pure, |pure|, sprint, meaning)
              && (meaning.Err? ==> result == Err(meaning.error))
              && (meaning.Ok? ==> result.Ok? && Denotes(heap, result.value, meaning.value))
              && (meaning.Ok? && FaithfulRun(baseTree, pure, |pure|, sprint) ==>
                    Tree(heap, result.value, meaning.value))
      ensures forall x | x in old(heap) && !UpdateOwns(old(heap), actions, pure, x) ::
                x in heap && heap[x] == old(heap)[x]
    {
      assert |actions| == |pure|;
      hide Tree, Owns, Denotes, ReservedKept, Later, Untouched, DocumentIs, FaithfulRun, FaithfulDocument, UpdateOwns,
        ApplyActions, OverlayMeaning.DoesAll;
      var json := Read(base, baseTree);
      ghost var before, bound := heap, next;
      var root := Build(json);
      LaterStarts(before, heap, bound, root, baseTree, actions, pure);
      var error := ApplyAll(root, actions, before, baseTree, pure);
      LaterIsUnowned(before, heap, actions, pure);
      OverlayMeaning.DocumentDoes(baseTree, pure, |pure|, sprint, ApplyActions(baseTree, pure, |pure|, sprint));
      result := if error.Some? then Err(error.value) else Ok(root);
    }

    /** The action loop of `Apply`, on the copy. */
    method ApplyAll(root: Value, actions: seq<Action<Value>>, ghost h0: Heap, ghost baseTree: Json,
                    ghost pure: seq<Action<Json>>)
      returns (error: Option<OverlayError>)
      requires Valid() && baseTree.Obj? && Tree(heap, root, baseTree) && |actions| == |pure|
      requires DocumentIs(h0, actions, pure) && FaithfulDocument(baseTree, pure, sprint)
      requires ReservedKept(h0, heap, root, baseTree, Later(h0, actions, pure, 0))
      requires Untouched(h0, heap, Later(h0, actions, pure, |actions|))
      modifies this
      ensures Untouched(h0, heap, Later(h0, actions, pure, |actions|))
      ensures var meaning := ApplyActions(baseTree, pure, |pure|, sprint);
              && (meaning.Err? ==> error == Some(meaning.error))
              && (meaning.Ok? ==> error == None && Denotes(heap, root, meaning.value))
              && (meaning.Ok? && FaithfulRun(baseTree, pure, |pure|, sprint) ==> Tree(heap, root, meaning.value))
    {
      hide *;
      ghost var t := baseTree;
      ghost var faithful := FaithfulRun(baseTree, pure, |pure|, sprint);
      NoActions(baseTree, pure, sprint);
      TreeDenotes(heap, root, t);
      for i := 0 to |actions|
        invariant Valid() && t.Obj? && Denotes(heap, root, t)
        invariant ApplyActions(baseTree, pure, i, sprint) == Ok(t)
        invariant i < |actions| || faithful ==>
          Tree(heap, root, t) && ReservedKept(h0, heap, root, t, Later(h0, actions, pure, i))
        invariant Untouched(h0, heap, Later(h0, actions, pure, |actions|))
      {
        DocumentNext(baseTree, pure, i, sprint);
        NextActionReady(h0, heap, root, t, actions, pure, i);
        ghost var before := heap;
        error := ApplyAction(actions[i], root, t, pure[i], Later(h0, actions, pure, i + 1));
        LaterKept(h0, before, heap, actions, pure, i);
        if error.Some? {
          ErrorStays(baseTree, pure, i + 1, |pure|, sprint);
          return;
        }
        ghost var t' := OverlayTree.ApplyAction(t, pure[i], sprint).value;
        if i + 1 < |actions| || faithful {
          LaterKeptOn(h0, before, heap, root, t, t', actions, pure, i);
        }
        t := t';
      }
      error := None;
    }
  }
}
