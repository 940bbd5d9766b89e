/** What the phases of an overlay action do to the tree, place by place: the update loop, the remove loop, the copy with
    the objects that it creates on its way, and a removal after a copy that has replaced what held a match. Some of
    that is surprising, and stated with concrete documents next to the exact conditions. `OverlayMeaning` puts these
    effects together. */
module OverlayEffects {
  import opened Wrappers
  import opened OverlayPath
  import opened OverlayTree
  import opened OverlayRemove

  // ---- Places that keep their kind --------------------------------------------------------------------------

  /** The same scalar, or the same kind of node with the same steps. */
  ghost predicate SameTop(t: Json, t': Json) {
    && (t.Leaf? || t'.Leaf? ==> t == t') && t.Obj? == t'.Obj? && t.Arr? == t'.Arr?
    && forall s :: Has(t, s) <==> Has(t', s)
  }

  lemma {:induction false} PutKeepsTop(t: Json, m: Path, v: Json, p: Path)
    requires HasPath(t, m) && !(m <= p)
    ensures HasPath(Put(t, m, v), p) <==> HasPath(t, p)
    ensures HasPath(t, p) ==> SameTop(Get(t, p), Get(Put(t, m, v), p))
    decreases |p|
  {
    if p == [] {
      PutInside(t, m, v);
    } else if m[0] == p[0] {
      PutKeepsTop(Child(t, p[0]), m[1..], v, p[1..]);
    }
  }

  lemma PutInside(t: Json, m: Path, v: Json)
    requires HasPath(t, m) && m != []
    ensures SameTop(t, Put(t, m, v))
  {
    var child := Put(Child(t, m[0]), m[1..], v);
    assert forall s :: Has(WithChild(t, m[0], child), s) <==> Has(t, s);
  }

  lemma SameTopTwice(t: Json, t': Json, t'': Json)
    requires SameTop(t, t') && SameTop(t', t'')
    ensures SameTop(t, t'')
  {
  }

  /** Places that are not at or below a match keep their kind and their steps under an update. */
  lemma {:induction false} UpdateKeepsTop(t: Json, paths: seq<Path>, n: nat, trees: map<string, Json>, p: Path)
    requires n <= |paths| && forall i | 0 <= i < n :: !(paths[i] <= p)
    requires UpdateFirst(t, paths, n, trees).Ok?
    ensures HasPath(UpdateFirst(t, paths, n, trees).value, p) <==> HasPath(t, p)
    ensures HasPath(t, p) ==> SameTop(Get(t, p), Get(UpdateFirst(t, paths, n, trees).value, p))
    decreases n
  {
    if n > 0 {
      hide HasPath, Get, Put;
      UpdateKeepsTop(t, paths, n - 1, trees, p);
      var before := UpdateFirst(t, paths, n - 1, trees).value;
      PutKeepsTop(before, paths[n - 1], Obj(Get(before, paths[n - 1]).fields + trees), p);
    }
  }

  /** And those that are not at or below a container of a match, under a removal. */
  lemma {:induction false} RemoveKeepsTop(matched: Json, t: Json, paths: seq<Path>, n: nat, q: Path)
    requires n <= |paths| && forall i | 0 <= i < n :: paths[i] != [] && !(Init(paths[i]) <= q)
    ensures var t' := RemoveFirst(matched, t, paths, n);
            (HasPath(t', q) <==> HasPath(t, q)) && (HasPath(t, q) ==> SameTop(Get(t, q), Get(t', q)))
    decreases n
  {
    if n > 0 {
      hide HasPath, Get, RemoveOne;
      RemoveOneKeepsTop(matched, t, paths[n - 1], q);
      RemoveKeepsTop(matched, RemoveOne(matched, t, paths[n - 1]), paths, n - 1, q);
    }
  }

  lemma RemoveOneKeepsTop(matched: Json, t: Json, p: Path, q: Path)
    requires p != [] && !(Init(p) <= q)
    ensures var t' := RemoveOne(matched, t, p);
            (HasPath(t', q) <==> HasPath(t, q)) && (HasPath(t, q) ==> SameTop(Get(t, q), Get(t', q)))
  {
    if HasPath(t, Init(p)) {
      match Last(p) {
        case Key(name) =>
          if Get(t, Init(p)).Obj? {
            PutKeepsTop(t, Init(p), Obj(Get(t, Init(p)).fields - {name}), q);
          }
        case At(index) =>
          if HasPath(matched, p) {
            PutKeepsTop(t, Init(p), Arr(DropAt(Element(matched, p), index)), q);
          }
      }
    }
  }

  // ---- Update -----------------------------------------------------------------------------------------------

  /** The update loop, seen from one path that no match is above or below. */
  lemma {:induction false} UpdateElsewhere(t: Json, paths: seq<Path>, n: nat, update: map<string, Json>, q: Path)
    requires n <= |paths| && forall i | 0 <= i < n :: Unrelated(paths[i], q)
    requires UpdateFirst(t, paths, n, update).Ok?
    ensures var t' := UpdateFirst(t, paths, n, update).value;
            (HasPath(t', q) <==> HasPath(t, q)) && (HasPath(t, q) ==> Get(t', q) == Get(t, q))
    decreases n
  {
    hide HasPath, Get, Put;
    if n > 0 {
      UpdateElsewhere(t, paths, n - 1, update, q);
      var before := UpdateFirst(t, paths, n - 1, update).value;
      PutGetOther(before, paths[n - 1], Obj(Get(before, paths[n - 1]).fields + update), q);
    }
  }

  lemma {:induction false} UpdateHere(t: Json, paths: seq<Path>, n: nat, update: map<string, Json>, i: nat)
    requires i < n <= |paths| && AllUnrelated(paths) && AllIn(t, paths)
    requires UpdateFirst(t, paths, n, update).Ok?
    ensures var t' := UpdateFirst(t, paths, n, update).value;
            && HasPath(t', paths[i]) && Get(t, paths[i]).Obj?
            && Get(t', paths[i]) == Obj(Get(t, paths[i]).fields + update)
    decreases n
  {
    hide HasPath, Get, Put;
    var before := UpdateFirst(t, paths, n - 1, update).value;
    var p := paths[n - 1];
    var new' := Obj(Get(before, p).fields + update);
    if i == n - 1 {
      UpdateElsewhere(t, paths, n - 1, update, p);
      PutGet(before, p, new', new');
    } else {
      UpdateHere(t, paths, n - 1, update, i);
      PutGetOther(before, p, new', paths[i]);
    }
  }

  lemma {:induction false} UpdateSucceeds(t: Json, paths: seq<Path>, n: nat, update: map<string, Json>)
    requires n <= |paths| && AllUnrelated(paths) && AllIn(t, paths)
    ensures UpdateFirst(t, paths, n, update).Ok? <==> forall i | 0 <= i < n :: Get(t, paths[i]).Obj?
    decreases n
  {
    hide HasPath, Get, Put;
    if n > 0 {
      UpdateSucceeds(t, paths, n - 1, update);
      if UpdateFirst(t, paths, n - 1, update).Ok? {
        UpdateElsewhere(t, paths, n - 1, update, paths[n - 1]);
      }
    }
  }

  /** An update succeeds exactly when every match is an object; then every match gains the update's fields, and
      every place that is not above or below a match keeps its subtree. */
  lemma UpdateEffect(t: Json, tokens: seq<Token>, update: map<string, Json>, sprint: Printer)
    ensures var paths := Select(t, tokens, sprint);
            var result := UpdateFirst(t, paths, |paths|, update);
            && (result.Ok? <==> forall p | Matches(t, p, tokens, sprint) :: Get(t, p).Obj?)
            && (result.Ok? ==>
                  && (forall p | Matches(t, p, tokens, sprint) ::
                        HasPath(result.value, p) && Get(result.value, p) == Obj(Get(t, p).fields + update))
                  && (forall q | HasPath(t, q) && (forall p | Matches(t, p, tokens, sprint) :: Unrelated(p, q)) ::
                        HasPath(result.value, q) && Get(result.value, q) == Get(t, q)))
  {
    var paths := Select(t, tokens, sprint);
    MatchesUnrelated(t, tokens, sprint);
    UpdateSucceeds(t, paths, |paths|, update);
    forall p
      ensures Matches(t, p, tokens, sprint) <==> p in paths
    {
      SelectExact(t, tokens, sprint, p);
    }
    forall i | 0 <= i < |paths|
      ensures Matches(t, paths[i], tokens, sprint)
    {
      assert paths[i] in paths;
    }
    var result := UpdateFirst(t, paths, |paths|, update);
    if result.Ok? {
      forall p | Matches(t, p, tokens, sprint)
        ensures HasPath(result.value, p) && Get(t, p).Obj? && Get(result.value, p) == Obj(Get(t, p).fields + update)
      {
        var i :| 0 <= i < |paths| && paths[i] == p;
        UpdateHere(t, paths, |paths|, update, i);
      }
      forall q | HasPath(t, q) && forall p | Matches(t, p, tokens, sprint) :: Unrelated(p, q)
        ensures HasPath(result.value, q) && Get(result.value, q) == Get(t, q)
      {
        UpdateElsewhere(t, paths, |paths|, update, q);
      }
    }
  }

  // ---- Remove -----------------------------------------------------------------------------------------------

  /** The container of a match without that match, as the last call on it leaves it. */
  ghost function Removed(t: Json, p: Path): Json
    requires p != [] && HasPath(t, p)
  {
    PathPrefix(t, p, |p| - 1);
    match Last(p)
    case Key(name) => (if Get(t, Init(p)).Obj? then Obj(Get(t, Init(p)).fields - {name}) else Get(t, Init(p)))
    case At(_) => Shortened(t, p)
  }

  ghost predicate Removable(t: Json, paths: seq<Path>) {
    && AllIn(t, paths) && AllUnrelated(paths)
    && (forall i | 0 <= i < |paths| :: paths[i] != [])
    && (forall i, j | 0 <= i < |paths| && 0 <= j < |paths| :: |paths[i]| == |paths[j]|)
    && (forall i, j | 0 <= i < |paths| && 0 <= j < |paths| ::
          paths[i] != [] && paths[j] != [] && Last(paths[i]).Key? ==> Last(paths[j]) == Last(paths[i]))
  }

  lemma RemoveOneElsewhere(matched: Json, t: Json, p: Path, q: Path)
    requires p != [] && Unrelated(Init(p), q)
    ensures HasPath(RemoveOne(matched, t, p), q) <==> HasPath(t, q)
    ensures HasPath(t, q) ==> Get(RemoveOne(matched, t, p), q) == Get(t, q)
  {
    if HasPath(t, Init(p)) {
      match Last(p) {
        case Key(name) =>
          if Get(t, Init(p)).Obj? {
            PutGetOther(t, Init(p), Obj(Get(t, Init(p)).fields - {name}), q);
          }
        case At(index) =>
          if HasPath(matched, p) {
            PutGetOther(t, Init(p), Arr(DropAt(Element(matched, p), index)), q);
          }
      }
    }
  }

  lemma {:induction false} RemoveElsewhere(matched: Json, t: Json, paths: seq<Path>, n: nat, q: Path)
    requires n <= |paths| && forall i | 0 <= i < n :: paths[i] != [] && Unrelated(Init(paths[i]), q)
    ensures var t' := RemoveFirst(matched, t, paths, n);
            (HasPath(t', q) <==> HasPath(t, q)) && (HasPath(t, q) ==> Get(t', q) == Get(t, q))
    decreases n
  {
    if n > 0 {
      RemoveOneElsewhere(matched, t, paths[n - 1], q);
      RemoveElsewhere(matched, RemoveOne(matched, t, paths[n - 1]), paths, n - 1, q);
    }
  }

  /** Within each container, the call for the first of its matches comes last and decides. */
  lemma {:induction false} RemoveHere(matched: Json, t: Json, paths: seq<Path>, n: nat, i: nat)
    requires i < n <= |paths| && Removable(matched, paths)
    requires forall j | 0 <= j < i :: Init(paths[j]) != Init(paths[i])
    requires HasPath(matched, Init(paths[i])) && HasPath(t, Init(paths[i]))
    requires Last(paths[i]).Key? ==> Get(t, Init(paths[i])) == Get(matched, Init(paths[i]))
    ensures var t' := RemoveFirst(matched, t, paths, n);
            HasPath(t', Init(paths[i])) && Get(t', Init(paths[i])) == Removed(matched, paths[i])
    decreases n
  {
    hide HasPath, Get, Put, RemoveOne, Removed;
    var c, p := Init(paths[i]), paths[n - 1];
    var t1 := RemoveOne(matched, t, p);
    if i == n - 1 {
      RemovesAt(matched, t, p);
      forall j | 0 <= j < n - 1
        ensures Unrelated(Init(paths[j]), c)
      {
        assert |paths[j]| == |paths[i]|;
      }
      RemoveElsewhere(matched, t1, paths, n - 1, c);
    } else {
      if Init(p) == c {
        SameContainerIsArray(matched, paths, i, n - 1);
        RemovesAt(matched, t, p);
      } else {
        assert |p| == |paths[i]|;
        RemoveOneElsewhere(matched, t, p, c);
      }
      RemoveHere(matched, t1, paths, n - 1, i);
    }
  }

  lemma SameContainerIsArray(matched: Json, paths: seq<Path>, i: nat, j: nat)
    requires Removable(matched, paths) && i < j < |paths| && Init(paths[i]) == Init(paths[j])
    ensures Last(paths[i]).At?
  {
    assert Unrelated(paths[i], paths[j]);
    assert paths[i] == Init(paths[i]) + [Last(paths[i])] && paths[j] == Init(paths[j]) + [Last(paths[j])];
  }

  lemma RemovesAt(matched: Json, t: Json, p: Path)
    requires p != [] && HasPath(matched, p) && HasPath(t, Init(p))
    requires HasPath(matched, Init(p)) && (Last(p).Key? ==> Get(t, Init(p)) == Get(matched, Init(p)))
    ensures var t' := RemoveOne(matched, t, p);
            && HasPath(t', Init(p))
            && (Last(p).At? || Get(t, Init(p)).Obj? ==> Get(t', Init(p)) == Removed(matched, p))
            && (Last(p).Key? && !Get(t, Init(p)).Obj? ==> t' == t && Get(t, Init(p)) == Removed(matched, p))
  {
    match Last(p)
    case Key(name) =>
      if Get(t, Init(p)).Obj? {
        var c' := Obj(Get(t, Init(p)).fields - {name});
        PutGet(t, Init(p), c', c');
      }
    case At(index) =>
      PutGet(t, Init(p), Shortened(matched, p), Shortened(matched, p));
  }

  /** The items that a token does not accept. */
  function Kept(t: Json, n: nat, token: Token, sprint: Printer): seq<Json>
    requires t.Arr? && n <= |t.items|
  {
    if n == 0 then []
    else Kept(t, n - 1, token, sprint) + if Accepts(t, token, At(n - 1), sprint) then [] else [t.items[n - 1]]
  }

  /** A node without any of the children that a token accepts. */
  function Purged(t: Json, token: Token, sprint: Printer): Json {
    match t
    case Leaf(_) => t
    case Obj(fields) => (if token.Field? then Obj(fields - {token.name}) else t)
    case Arr(items) => Arr(Kept(t, |items|, token, sprint))
  }

  lemma {:induction false} KeptUpTo(t: Json, n: nat, token: Token, sprint: Printer, i: nat)
    requires t.Arr? && n <= |t.items| && i < |t.items| && Accepts(t, token, At(i), sprint)
    ensures |Kept(t, n, token, sprint)| <= if i < n then n - 1 else n
    ensures (forall j | 0 <= j < n && j != i :: !Accepts(t, token, At(j), sprint)) ==>
              Kept(t, n, token, sprint) == if i < n then t.items[..i] + t.items[i + 1..n] else t.items[..n]
    decreases n
  {
    if n > 0 {
      KeptUpTo(t, n - 1, token, sprint, i);
      if i < n - 1 {
        assert t.items[..i] + t.items[i + 1..n - 1] + [t.items[n - 1]] == t.items[..i] + t.items[i + 1..n];
      } else if i >= n {
        assert t.items[..n - 1] + [t.items[n - 1]] == t.items[..n];
      }
    }
  }

  lemma {:induction false} KeptWithoutTwo(t: Json, n: nat, token: Token, sprint: Printer, i: nat, j: nat)
    requires t.Arr? && i < j < n <= |t.items|
    requires Accepts(t, token, At(i), sprint) && Accepts(t, token, At(j), sprint)
    ensures |Kept(t, n, token, sprint)| <= n - 2
    decreases n
  {
    if j < n - 1 {
      KeptWithoutTwo(t, n - 1, token, sprint, i, j);
    } else {
      KeptUpTo(t, n - 1, token, sprint, i);
    }
  }

  /** `s` is the only step that the token accepts. */
  ghost predicate OnlyStep(node: Json, token: Token, sprint: Printer, s: Step) {
    forall s' | Accepts(node, token, s', sprint) :: s' == s
  }

  /** Removing one match purges its container exactly when no other match is in it. */
  lemma RemovedIsPurgedIff(t: Json, p: Path, token: Token, sprint: Printer)
    requires p != [] && HasPath(t, p) && HasPath(t, Init(p)) && Accepts(Get(t, Init(p)), token, Last(p), sprint)
    ensures Removed(t, p) == Purged(Get(t, Init(p)), token, sprint) <==>
              OnlyStep(Get(t, Init(p)), token, sprint, Last(p))
  {
    var node := Get(t, Init(p));
    if node.Arr? {
      var n, i := |node.items|, Last(p).index;
      ShortenedIs(t, p);
      KeptUpTo(node, n, token, sprint, i);
      assert node.items[i + 1..n] == node.items[i + 1..];
      hide Shortened, Kept, Get, HasPath, Accepts;
      if s :| Accepts(node, token, s, sprint) && s != Last(p) {
        AcceptedItems(node, token, sprint, s, Last(p));
        if s.index < i {
          KeptWithoutTwo(node, n, token, sprint, s.index, i);
        } else {
          KeptWithoutTwo(node, n, token, sprint, i, s.index);
        }
      }
    }
  }

  lemma ShortenedIs(t: Json, p: Path)
    requires p != [] && Last(p).At? && HasPath(t, p) && HasPath(t, Init(p)) && Get(t, Init(p)).Arr?
    ensures var items, i := Get(t, Init(p)).items, Last(p).index;
            i < |items| && Shortened(t, p) == Arr(items[..i] + items[i + 1..])
  {
    assert Element(t, p) == Get(t, Init(p)).items;
  }

  lemma AcceptedItems(t: Json, token: Token, sprint: Printer, s: Step, s': Step)
    requires t.Arr? && Accepts(t, token, s, sprint) && Accepts(t, token, s', sprint) && s != s'
    ensures s.At? && s'.At? && s.index < |t.items| && s'.index < |t.items| && s.index != s'.index
    ensures s == At(s.index) && s' == At(s'.index)
  {
  }

  lemma MatchesRemovable(t: Json, tokens: seq<Token>, sprint: Printer)
    requires tokens != []
    ensures Removable(t, Select(t, tokens, sprint))
  {
    var paths := Select(t, tokens, sprint);
    MatchesUnrelated(t, tokens, sprint);
    forall i | 0 <= i < |paths|
      ensures |paths[i]| == |tokens| && paths[i] != []
      ensures Last(paths[i]).Key? ==> tokens[|tokens| - 1] == Field(Last(paths[i]).name)
      ensures Last(paths[i]).At? ==> !tokens[|tokens| - 1].Field?
    {
      SelectLast(t, tokens, sprint, i);
    }
  }

  /** The matches in one container are the steps that the last token accepts there. */
  lemma MatchesInContainer(t: Json, tokens: seq<Token>, sprint: Printer, p: Path, s: Step)
    requires tokens != [] && Matches(t, p, tokens, sprint)
    ensures p != [] && HasPath(t, Init(p))
    ensures Matches(t, Init(p) + [s], tokens, sprint) <==> Accepts(Get(t, Init(p)), tokens[|tokens| - 1], s, sprint)
  {
    var q := Init(p) + [s];
    assert Init(q) == Init(p) && Last(q) == s;
    MatchesLast(t, p, tokens, sprint);
    MatchesLast(t, q, tokens, sprint);
  }

  /** No other match lies in the same container. */
  ghost predicate Alone(t: Json, tokens: seq<Token>, sprint: Printer, p: Path)
    requires p != []
  {
    forall q | Matches(t, q, tokens, sprint) && q != [] && Init(q) == Init(p) :: q == p
  }

  lemma AloneIff(t: Json, tokens: seq<Token>, sprint: Printer, p: Path)
    requires tokens != [] && Matches(t, p, tokens, sprint) && p != [] && HasPath(t, Init(p))
    ensures Alone(t, tokens, sprint, p) <==> OnlyStep(Get(t, Init(p)), tokens[|tokens| - 1], sprint, Last(p))
  {
    hide Matches, Accepts, HasPath, Get;
    var node, token := Get(t, Init(p)), tokens[|tokens| - 1];
    if Alone(t, tokens, sprint, p) {
      forall s | Accepts(node, token, s, sprint)
        ensures s == Last(p)
      {
        MatchesInContainer(t, tokens, sprint, p, s);
        var q := Init(p) + [s];
        assert Init(q) == Init(p) && Last(q) == s;
      }
    }
    if OnlyStep(node, token, sprint, Last(p)) {
      forall q | Matches(t, q, tokens, sprint) && q != [] && Init(q) == Init(p)
        ensures q == p
      {
        assert q == Init(p) + [Last(q)];
        MatchesInContainer(t, tokens, sprint, p, Last(q));
        assert p == Init(p) + [Last(p)];
      }
    }
  }

  /** The first match of a container in list order. */
  lemma FirstInContainer(paths: seq<Path>, i: nat) returns (f: nat)
    requires i < |paths| && forall j | 0 <= j < |paths| :: paths[j] != []
    ensures f <= i && Init(paths[f]) == Init(paths[i])
    ensures forall j | 0 <= j < f :: Init(paths[j]) != Init(paths[i])
  {
    f := 0;
    while Init(paths[f]) != Init(paths[i])
      invariant f <= i && forall j | 0 <= j < f :: Init(paths[j]) != Init(paths[i])
      decreases i - f
    {
      f := f + 1;
    }
  }

  /** What a removal leaves of the container of one match: the container without its first match; that is the
      container without any match exactly when it held only one. */
  lemma RemoveAtMatch(t: Json, tokens: seq<Token>, sprint: Printer, p: Path) returns (first: Path)
    requires tokens != [] && Matches(t, p, tokens, sprint)
    ensures p != [] && first != [] && Init(first) == Init(p) && Matches(t, first, tokens, sprint)
    ensures HasPath(t, Init(p))
    ensures var t' := RemoveFirst(t, t, Select(t, tokens, sprint), |Select(t, tokens, sprint)|);
            && HasPath(t', Init(p)) && Get(t', Init(p)) == Removed(t, first)
            && (Get(t', Init(p)) == Purged(Get(t, Init(p)), tokens[|tokens| - 1], sprint) <==>
                  Alone(t, tokens, sprint, p))
  {
    var paths := Select(t, tokens, sprint);
    SelectExact(t, tokens, sprint, p);
    MatchesRemovable(t, tokens, sprint);
    var i :| 0 <= i < |paths| && paths[i] == p;
    var f := FirstInContainer(paths, i);
    first := paths[f];
    assert first in paths;
    SelectExact(t, tokens, sprint, first);
    PathPrefix(t, p, |p| - 1);
    RemoveHere(t, t, paths, |paths|, f);
    MatchesLast(t, first, tokens, sprint);
    RemovedIsPurgedIff(t, first, tokens[|tokens| - 1], sprint);
    AloneIff(t, tokens, sprint, first);
    AloneIff(t, tokens, sprint, p);
  }

  /** The container of `p` has lost every match in it. */
  ghost predicate PurgedAt(t: Json, t': Json, tokens: seq<Token>, sprint: Printer, p: Path)
    requires tokens != []
  {
    && p != [] && HasPath(t, Init(p)) && HasPath(t', Init(p))
    && Get(t', Init(p)) == Purged(Get(t, Init(p)), tokens[|tokens| - 1], sprint)
  }

  /** A removal deletes every match exactly when no container holds two of them, which only an array under a final
      filter can. */
  lemma RemoveDeletesAllIff(t: Json, tokens: seq<Token>, sprint: Printer)
    requires tokens != []
    ensures var t' := RemoveFirst(t, t, Select(t, tokens, sprint), |Select(t, tokens, sprint)|);
            (forall p | Matches(t, p, tokens, sprint) :: PurgedAt(t, t', tokens, sprint, p)) <==>
            (forall p | Matches(t, p, tokens, sprint) :: p != [] && Alone(t, tokens, sprint, p))
  {
    hide Matches, Alone, Get, HasPath, Purged, RemoveFirst;
    var t' := RemoveFirst(t, t, Select(t, tokens, sprint), |Select(t, tokens, sprint)|);
    forall p | Matches(t, p, tokens, sprint)
      ensures p != [] && (PurgedAt(t, t', tokens, sprint, p) <==> Alone(t, tokens, sprint, p))
    {
      var first := RemoveAtMatch(t, tokens, sprint, p);
    }
  }

  /** Places that no container of a match is above or below keep their subtree. */
  lemma RemoveKeepsElsewhere(t: Json, tokens: seq<Token>, sprint: Printer, q: Path)
    requires tokens != [] && HasPath(t, q)
    requires forall p | Matches(t, p, tokens, sprint) :: p != [] && Unrelated(Init(p), q)
    ensures var t' := RemoveFirst(t, t, Select(t, tokens, sprint), |Select(t, tokens, sprint)|);
            HasPath(t', q) && Get(t', q) == Get(t, q)
  {
    var paths := Select(t, tokens, sprint);
    forall i | 0 <= i < |paths|
      ensures paths[i] != [] && Unrelated(Init(paths[i]), q)
    {
      assert paths[i] in paths;
      SelectExact(t, tokens, sprint, paths[i]);
    }
    RemoveElsewhere(t, t, paths, |paths|, q);
  }

  /** Two equal items under one filter, as in `$.list[?(@.k=='v')]`: not every match goes. */
  lemma RemoveLeavesAMatch(sprint: Printer, item: Json, t: Json, tokens: seq<Token>)
    requires sprint(Leaf(Text("v"))) == "v"
    requires item == Obj(map["k" := Leaf(Text("v"))]) && t == Obj(map["list" := Arr([item, item])])
    requires tokens == [Field("list"), Filter("k", "v")]
    ensures var t' := RemoveFirst(t, t, Select(t, tokens, sprint), |Select(t, tokens, sprint)|);
            exists p :: Matches(t, p, tokens, sprint) && !PurgedAt(t, t', tokens, sprint, p)
  {
    var p, q := [Key("list"), At(0)], [Key("list"), At(1)];
    ListItemMatches(sprint, item, t, tokens, 0);
    ListItemMatches(sprint, item, t, tokens, 1);
    assert p != q && Init(p) == Init(q) == [Key("list")];
    assert !Alone(t, tokens, sprint, p);
    RemoveDeletesAllIff(t, tokens, sprint);
  }

  lemma ListItemMatches(sprint: Printer, item: Json, t: Json, tokens: seq<Token>, i: nat)
    requires i < 2 && sprint(Leaf(Text("v"))) == "v"
    requires item == Obj(map["k" := Leaf(Text("v"))]) && t == Obj(map["list" := Arr([item, item])])
    requires tokens == [Field("list"), Filter("k", "v")]
    ensures Matches(t, [Key("list"), At(i)], tokens, sprint)
  {
    var p := [Key("list"), At(i)];
    assert p[1..] == [At(i)] && [At(i)][1..] == [] && p[..1] == [Key("list")] && [Key("list")][1..] == [];
    assert Accepts(t, tokens[0], p[0], sprint) && p[..0] == [];
    assert Accepts(Get(t, p[..1]), tokens[1], p[1], sprint);
  }

  // ---- Copy -------------------------------------------------------------------------------------------------

  /** Putting a child at one step leaves every place that is neither on the way there nor under that step. */
  lemma {:induction false} WithChildElsewhere(t: Json, p: Path, s: Step, c: Json, q: Path)
    requires HasPath(t, p) && Takes(Get(t, p), s) && !(q <= p) && !(p + [s] <= q)
    ensures var t' := Put(t, p, WithChild(Get(t, p), s, c));
            (HasPath(t', q) <==> HasPath(t, q)) && (HasPath(t, q) ==> Get(t', q) == Get(t, q))
    decreases |p|
  {
    if p == [] {
      assert q[0] == s ==> p + [s] <= q;
    } else if q[0] == p[0] {
      assert p + [s] == [p[0]] + (p[1..] + [s]) && q == [p[0]] + q[1..];
      WithChildElsewhere(Child(t, p[0]), p[1..], s, c, q[1..]);
    }
  }

  /** Creating an object at a missing step shows at no place but that one. */
  lemma CreatedElsewhere(t: Json, p: Path, s: Step, q: Path)
    requires HasPath(t, p) && Takes(Get(t, p), s) && !Has(Get(t, p), s) && !(q <= p) && q != p + [s]
    ensures var t' := Put(t, p, WithChild(Get(t, p), s, Obj(map[])));
            (HasPath(t', q) <==> HasPath(t, q)) && (HasPath(t, q) ==> Get(t', q) == Get(t, q))
  {
    hide Get, Put;
    var node' := WithChild(Get(t, p), s, Obj(map[]));
    if p + [s] <= q {
      PutGet(t, p, node', node');
      PathExtend(Put(t, p, node'), p, s);
      var rest := q[|p| + 1..];
      assert q == (p + [s]) + rest;
      PathSplit(Put(t, p, node'), p + [s], rest);
      PathSplit(t, p + [s], rest);
      PathExtend(t, p, s);
    } else {
      WithChildElsewhere(t, p, s, Obj(map[]), q);
    }
  }

  lemma {:induction false} SetPathEffect(t: Json, tokens: seq<Token>, i: nat, source: Path, q: Path)
    requires i < |tokens| && (forall k | 0 <= k < i :: tokens[k].Field?) && HasPath(t, Names(tokens, i))
    requires SetPath(t, tokens, i, source).Ok?
    ensures forall k | 0 <= k < |tokens| :: tokens[k].Field?
    ensures var t', dest := SetPath(t, tokens, i, source).value, Names(tokens, |tokens|);
            && HasPath(t', dest)
            && (HasPath(t, source) && !(source < dest) ==> Get(t', dest) == Get(t, source))
            && (Unrelated(dest, q) ==>
                  (HasPath(t', q) <==> HasPath(t, q)) && (HasPath(t, q) ==> Get(t', q) == Get(t, q)))
    decreases |tokens| - i
  {
    hide HasPath, Get, Put, WithChild;
    var here, step := Names(tokens, i), Key(tokens[i].name);
    var node := Get(t, here);
    assert Names(tokens, i + 1) == here + [step];
    if i == |tokens| - 1 {
      var t' := Put(t, here, WithChild(node, step, Get(t, source)));
      PutGet(t, here, WithChild(node, step, Get(t, source)), node);
      PathExtend(t', here, step);
      if Unrelated(here + [step], q) {
        WithChildElsewhere(t, here, step, Get(t, source), q);
      }
    } else if Has(node, step) {
      PathExtend(t, here, step);
      SetPathEffect(t, tokens, i + 1, source, q);
    } else {
      var new' := WithChild(node, step, Obj(map[]));
      var t1 := Put(t, here, new');
      PutGet(t, here, new', node);
      PathExtend(t1, here, step);
      SetPathEffect(t1, tokens, i + 1, source, q);
      var dest := Names(tokens, |tokens|);
      assert here + [step] <= dest;
      if Unrelated(dest, q) {
        CreatedElsewhere(t, here, step, q);
      }
      if HasPath(t, source) && !(source < dest) {
        MissingStep(t, here, step, source);
        assert !(source <= here);
        WithChildElsewhere(t, here, step, Obj(map[]), source);
      }
    }
  }

  /** Where everything down to the last object is there, nothing is created and the source is copied as it is. */
  lemma {:induction false} CopyWithoutCreating(t: Json, tokens: seq<Token>, i: nat, source: Path)
    requires i < |tokens| && (forall k | 0 <= k < |tokens| :: tokens[k].Field?) && SetPath(t, tokens, i, source).Ok?
    requires HasPath(t, source) && HasPath(t, Init(Names(tokens, |tokens|)))
    ensures var t', dest := SetPath(t, tokens, i, source).value, Names(tokens, |tokens|);
            HasPath(t', dest) && Get(t', dest) == Get(t, source)
    decreases |tokens| - i
  {
    hide HasPath, Get, Put, WithChild;
    var here, step, dest := Names(tokens, i), Key(tokens[i].name), Names(tokens, |tokens|);
    assert Names(tokens, i + 1) == here + [step];
    if i == |tokens| - 1 {
      var node := WithChild(Get(t, here), step, Get(t, source));
      PutGet(t, here, node, node);
      PathExtend(Put(t, here, node), here, step);
    } else {
      PathPrefix(t, Init(dest), i + 1);
      assert Init(dest)[..i + 1] == here + [step];
      PathExtend(t, here, step);
      CopyWithoutCreating(t, tokens, i + 1, source);
    }
  }

  /** A copy of something on the way to the destination holds the whole way from there. */
  lemma {:induction false} CopyHoldsTheWay(t: Json, tokens: seq<Token>, i: nat, source: Path)
    requires i < |tokens| && (forall k | 0 <= k < |tokens| :: tokens[k].Field?) && HasPath(t, Names(tokens, i))
    requires SetPath(t, tokens, i, source).Ok? && HasPath(t, source) && source < Names(tokens, |tokens|)
    ensures var t', dest := SetPath(t, tokens, i, source).value, Names(tokens, |tokens|);
            HasPath(t', dest) && HasPath(Get(t', dest), Init(dest)[|source|..])
    decreases |tokens| - i
  {
    hide HasPath, Get, Put, WithChild;
    var here, step, dest := Names(tokens, i), Key(tokens[i].name), Names(tokens, |tokens|);
    var node := Get(t, here);
    assert Names(tokens, i + 1) == here + [step];
    if i == |tokens| - 1 {
      var node' := WithChild(node, step, Get(t, source));
      PutGet(t, here, node', node);
      PathExtend(Put(t, here, node'), here, step);
      assert Init(dest) == here == source + here[|source|..];
      PathSplit(t, source, here[|source|..]);
    } else if Has(node, step) {
      PathExtend(t, here, step);
      CopyHoldsTheWay(t, tokens, i + 1, source);
    } else {
      var new' := WithChild(node, step, Obj(map[]));
      var t1 := Put(t, here, new');
      PutGet(t, here, new', node);
      PathExtend(t1, here, step);
      MissingStep(t, here, step, source);
      assert here + [step] == dest[..i + 1];
      assert here[..|source|] == source;
      PathPrefix(t1, here, |source|);
      CopyHoldsTheWay(t1, tokens, i + 1, source);
    }
  }

  /** A successful copy puts the source's subtree at the destination if and only if the source does not lie on the
      way there or nothing has to be created on that way; and it keeps every place that the destination is not above
      or below. */
  lemma CopyEffect(t: Json, tokens: seq<Token>, source: Path, q: Path)
    requires tokens != [] && SetPath(t, tokens, 0, source).Ok?
    ensures forall k | 0 <= k < |tokens| :: tokens[k].Field?
    ensures var t', dest := SetPath(t, tokens, 0, source).value, Names(tokens, |tokens|);
            && HasPath(t', dest)
            && (HasPath(t, source) ==>
                  (Get(t', dest) == Get(t, source) <==> !(source < dest) || HasPath(t, Init(dest))))
            && (Unrelated(dest, q) ==>
                  (HasPath(t', q) <==> HasPath(t, q)) && (HasPath(t, q) ==> Get(t', q) == Get(t, q)))
  {
    hide HasPath, Get, SetPath;
    assert Names(tokens, 0) == [] && HasPath(t, []) by {
      EmptyPath(t);
    }
    SetPathEffect(t, tokens, 0, source, q);
    var t', dest := SetPath(t, tokens, 0, source).value, Names(tokens, |tokens|);
    if HasPath(t, source) && HasPath(t, Init(dest)) {
      CopyWithoutCreating(t, tokens, 0, source);
    } else if HasPath(t, source) && source < dest {
      CopyHoldsTheWay(t, tokens, 0, source);
      assert Init(dest) == source + Init(dest)[|source|..];
      PathSplit(t, source, Init(dest)[|source|..]);
    }
  }

  lemma EmptyPath(t: Json)
    ensures HasPath(t, [])
  {
  }

  /** Copying `$.a` to `$.a.x.y`: the object created on the way is part of what is copied. */
  lemma CopyIntoItself(t: Json, tokens: seq<Token>)
    requires t == Obj(map["a" := Obj(map[])]) && tokens == [Field("a"), Field("x"), Field("y")]
    ensures var xs := Obj(map["x" := Obj(map[])]);
            SetPath(t, tokens, 0, [Key("a")]) == Ok(Obj(map["a" := Obj(map["x" := Obj(map["y" := xs])])]))
  {
    var t1 := Obj(map["a" := Obj(map["x" := Obj(map[])])]);
    assert Names(tokens, 0) == [] && Names(tokens, 1) == [Key("a")] && Names(tokens, 2) == [Key("a"), Key("x")];
    assert [Key("a")][1..] == [] && [Key("a"), Key("x")][1..] == [Key("x")] && [Key("x")][1..] == [];
    assert Put(t, [Key("a")], Obj(map["x" := Obj(map[])])) == t1;
    assert SetPath(t, tokens, 0, [Key("a")]) == SetPath(t, tokens, 1, [Key("a")]) == SetPath(t1, tokens, 2, [Key("a")]);
    assert Get(t1, [Key("a")]) == Obj(map["x" := Obj(map[])]);
    assert Get(t1, [Key("a"), Key("x")]) == Obj(map[]);
    var t2 := Put(t1, [Key("a"), Key("x")], Obj(map["y" := Obj(map["x" := Obj(map[])])]));
    var inner := Obj(map["x" := Obj(map["y" := Obj(map["x" := Obj(map[])])])]);
    assert Put(Child(t1, Key("a")), [Key("x")], Obj(map["y" := Obj(map["x" := Obj(map[])])])) == inner;
    assert t2 == WithChild(t1, Key("a"), inner);
    assert t1.fields["a" := inner] == map["a" := inner];
    var xs := Obj(map["x" := Obj(map[])]);
    assert WithChild(Obj(map[]), Key("y"), xs) == Obj(map["y" := xs]);
    assert SetPath(t1, tokens, 2, [Key("a")]) == Ok(t2);
  }

  // ---- Remove after a copy ----------------------------------------------------------------------------------

  lemma {:induction false} PutBelow(t: Json, c: Path, v: Json, q: Path)
    requires HasPath(t, c) && HasPath(t, q) && |q| < |c|
    ensures HasPath(Put(t, c, v), q) && (Get(Put(t, c, v), q).Obj? <==> Get(t, q).Obj?)
    decreases |q|
  {
    if q != [] && q[0] == c[0] {
      PutBelow(Child(t, c[0]), c[1..], v, q[1..]);
    }
  }

  /** Places above every container of a removed match stay, and objects there stay objects. */
  lemma {:induction false} RemoveKeepsAbove(matched: Json, t: Json, paths: seq<Path>, n: nat, q: Path)
    requires n <= |paths| && HasPath(t, q) && forall i | 0 <= i < n :: |q| + 1 < |paths[i]|
    ensures var t' := RemoveFirst(matched, t, paths, n); HasPath(t', q) && (Get(t', q).Obj? <==> Get(t, q).Obj?)
    decreases n
  {
    if n > 0 {
      RemoveOneKeepsAbove(matched, t, paths[n - 1], q);
      RemoveKeepsAbove(matched, RemoveOne(matched, t, paths[n - 1]), paths, n - 1, q);
    }
  }

  lemma RemoveOneKeepsAbove(matched: Json, t: Json, p: Path, q: Path)
    requires HasPath(t, q) && |q| + 1 < |p|
    ensures var t' := RemoveOne(matched, t, p); HasPath(t', q) && (Get(t', q).Obj? <==> Get(t, q).Obj?)
  {
    if HasPath(t, Init(p)) {
      match Last(p) {
        case Key(name) =>
          if Get(t, Init(p)).Obj? {
            PutBelow(t, Init(p), Obj(Get(t, Init(p)).fields - {name}), q);
          }
        case At(index) =>
          if HasPath(matched, p) {
            PutBelow(t, Init(p), Arr(DropAt(Element(matched, p), index)), q);
          }
      }
    }
  }

  lemma StoredIsThere(t: Json, p: Path, v: Json, q: Path)
    requires p != [] && HasPath(t, Init(p)) && Get(t, Init(p)).Obj? && Last(p).Key?
    ensures var t' := StoreAt(t, p, v);
            && HasPath(t', p) && Get(t', p) == v
            && (Unrelated(p, q) ==> (HasPath(t', q) <==> HasPath(t, q)) && (HasPath(t, q) ==> Get(t', q) == Get(t, q)))
  {
    var c, s := Init(p), Last(p);
    var node' := WithChild(Get(t, c), s, v);
    var t' := Put(t, c, node');
    PutGet(t, c, node', Get(t, c));
    PathExtend(t', c, s);
    assert c + [s] == p;
    if Unrelated(p, q) {
      WithChildElsewhere(t, c, s, v, q);
    }
  }

  /** A removal after a copy that has replaced the container of a match. If some match is an element that the
      destination reaches through arrays alone, the copy is lost and all is as if there had been none. If there is no
      such match, what was copied is at the destination as it was put there, and the removal shows only elsewhere. */
  lemma RemoveAfterCopy(before: Json, tokens: seq<Token>, source: Path, paths: seq<Path>, i: nat, q: Path)
    requires tokens != [] && SetPath(before, tokens, 0, source).Ok?
    requires Removable(before, paths) && i < |paths| && !CopySpares(tokens, paths[i])
    ensures forall k | 0 <= k < |tokens| :: tokens[k].Field?
    ensures var t, dest := SetPath(before, tokens, 0, source).value, Names(tokens, |tokens|);
            var removed := RemoveFirst(before, before, paths, |paths|);
            var result := RemoveMatches(before, t, tokens, paths);
            && HasPath(t, dest)
            && if exists p | p in paths :: Restores(dest, p) then result == removed
               else
                 && HasPath(result, dest) && Get(result, dest) == Get(t, dest)
                 && (Unrelated(dest, q) ==>
                       && (HasPath(result, q) <==> HasPath(removed, q))
                       && (HasPath(removed, q) ==> Get(result, q) == Get(removed, q)))
  {
    hide HasPath, Get, Put, SetPath, RemoveFirst, StoreAt, Restores;
    CopyEffect(before, tokens, source, q);
    var dest := Names(tokens, |tokens|);
    var p := paths[i];
    assert p in paths && p != [] && dest <= Init(p) && Last(dest).Key?;
    assert forall j | 0 <= j < |paths| :: |paths[j]| == |p|;
    RemovedHolder(before, paths, p, dest);
    var t := SetPath(before, tokens, 0, source).value;
    StoredIsThere(RemoveFirst(before, before, paths, |paths|), dest, Get(t, dest), q);
  }

  /** The object that holds the destination survives a removal further below. */
  lemma RemovedHolder(before: Json, paths: seq<Path>, p: Path, dest: Path)
    requires HasPath(before, p) && p != [] && dest != [] && Last(dest).Key? && dest <= Init(p)
    requires forall j | 0 <= j < |paths| :: |paths[j]| == |p|
    ensures var removed := RemoveFirst(before, before, paths, |paths|);
            HasPath(removed, Init(dest)) && Get(removed, Init(dest)).Obj?
  {
    hide HasPath, Get, RemoveFirst;
    PathPrefix(before, p, |dest|);
    assert p[..|dest|] == dest;
    ContainerOf(before, dest);
    RemoveKeepsAbove(before, before, paths, |paths|, Init(dest));
  }

  /** One more token that takes one step from a single match. */
  lemma SelectOneMore(t: Json, tokens: seq<Token>, p: Path, token: Token, s: Step, sprint: Printer)
    requires Select(t, tokens, sprint) == [p] && HasPath(t, p) && StepsFor(Get(t, p), token, sprint) == [s]
    ensures Select(t, tokens + [token], sprint) == [p + [s]]
    ensures HasPath(t, p + [s]) && HasPath(t, p) && Has(Get(t, p), s) && Get(t, p + [s]) == Child(Get(t, p), s)
  {
    assert (tokens + [token])[..|tokens|] == tokens;
    assert PathsAfter(t, [p][..0], token, sprint) == [];
    StepsForAre(Get(t, p), token, sprint);
    assert s in [s];
    PathExtend(t, p, s);
  }

  /** A path of a name and one more token, as its expression gives it. */
  lemma TwoTokens(name: string, token: Token, dotted: bool)
    requires Printable(Field(name), true) && Printable(token, dotted)
    ensures Parse("$" + ("." + name)) == Some([Field(name)])
    ensures Parse("$" + (("." + name) + PrintToken(token, dotted))) == Some([Field(name), token])
  {
    assert [true][0] && [true, dotted][0] && [true, dotted][1] == dotted;
    ParseInvertsPrint([Field(name)], [true]);
    ParseInvertsPrint([Field(name), token], [true, dotted]);
    PrintedAlone(Field(name), true);
    PrintedAlone(token, dotted);
    PrintedFirst(Field(name), true, token, dotted);
    hide Parse, PrintTokens, Printable;
  }

  lemma PrintedFirst(first: Token, dot: bool, token: Token, dotted: bool)
    ensures PrintTokens([first, token], [dot, dotted]) == PrintToken(first, dot) + PrintTokens([token], [dotted])
  {
    assert [first, token][1..] == [token] && [dot, dotted][1..] == [dotted];
  }

  lemma SelectNothing(t: Json, token: Token, sprint: Printer)
    ensures Select(t, [], sprint) == [[]] && HasPath(t, []) && Get(t, []) == t
    ensures token.Field? && Has(t, Key(token.name)) ==> StepsFor(t, token, sprint) == [Key(token.name)]
  {
  }

  lemma SelectTwo(t: Json, name: string, token: Token, s: Step, sprint: Printer)
    requires Has(t, Key(name)) && StepsFor(Child(t, Key(name)), token, sprint) == [s]
    ensures Select(t, [Field(name), token], sprint) == [[Key(name), s]]
    ensures HasPath(t, [Key(name)]) && Get(t, [Key(name)]) == Child(t, Key(name))
    ensures HasPath(t, [Key(name), s]) && Has(Child(t, Key(name)), s)
    ensures Get(t, [Key(name), s]) == Child(Child(t, Key(name)), s)
  {
    SelectNothing(t, Field(name), sprint);
    hide *;
    assert [] + [Field(name)] == [Field(name)] && [] + [Key(name)] == [Key(name)];
    SelectOneMore(t, [], [], Field(name), Key(name), sprint);
    SelectOneMore(t, [Field(name)], [Key(name)], token, s, sprint);
    assert [Field(name)] + [token] == [Field(name), token] && [Key(name)] + [s] == [Key(name), s];
  }

  /** A copy to a field of the root. */
  lemma CopyToField(t: Json, name: string, source: Path)
    requires t.Obj? && HasPath(t, source)
    ensures SetPath(t, [Field(name)], 0, source) == Ok(Obj(t.fields[name := Get(t, source)]))
  {
    assert Names([Field(name)], 0) == [];
  }

  /** An action that copies one match, `$.name` and one more step, to `$.name` and removes it. */
  lemma CopyUpAndRemove(t: Json, name: string, token: Token, dotted: bool, s: Step, action: Action<Json>,
                        sprint: Printer)
    requires Printable(Field(name), true) && Printable(token, dotted) && t.Obj?
    requires Has(t, Key(name)) && StepsFor(Child(t, Key(name)), token, sprint) == [s]
    requires action == Action("$" + (("." + name) + PrintToken(token, dotted)), None, Some("$" + ("." + name)), true)
    ensures Has(Child(t, Key(name)), s) && HasPath(t, [Key(name), s])
    ensures ApplyAction(t, action, sprint) ==
            Ok(if s.At? then RemoveOne(t, t, [Key(name), s])
               else Obj(t.fields[name := Child(Child(t, Key(name)), s)]))
  {
    TwoTokens(name, token, dotted);
    SelectTwo(t, name, token, s, sprint);
    var p, tokens, paths := [Key(name), s], [Field(name)], [[Key(name), s]];
    CopyToField(t, name, p);
    var t' := Obj(t.fields[name := Get(t, p)]);
    CopiedUpRemoved(t, t', name, s);
    hide Parse, SetPath, Select, RemoveMatches, StepsFor, Printable, PrintToken;
    assert UpdateStep(t, action, paths) == Ok(t) && CopyStep(t, action, paths) == Ok(t');
    assert Destination(action) == tokens;
  }

  lemma CopiedUpRemoved(t: Json, t': Json, name: string, s: Step)
    requires t.Obj? && Has(t, Key(name)) && Has(Child(t, Key(name)), s) && HasPath(t, [Key(name), s])
    requires t' == Obj(t.fields[name := Child(Child(t, Key(name)), s)])
    ensures RemoveMatches(t, t', [Field(name)], [[Key(name), s]]) ==
            if s.At? then RemoveOne(t, t, [Key(name), s]) else t'
  {
    var p, tokens, paths := [Key(name), s], [Field(name)], [[Key(name), s]];
    var dest := Names(tokens, 1);
    assert dest == [Key(name)] == Init(p) && p in paths && !CopySpares(tokens, p);
    var removed := RemoveOne(t, t, p);
    assert RemoveFirst(t, t, paths, 1) == RemoveFirst(t, removed, paths, 0) == removed;
    assert Restores(dest, p) <==> s.At?;
    if !s.At? {
      assert HasPath(t', dest) && Get(t', dest) == Child(t', Key(name));
    }
  }

  lemma PrintedExamples()
    ensures "$" + (("." + "a") + PrintToken(Field("b"), true)) == "$.a.b" && "$" + ("." + "a") == "$.a"
    ensures "$" + (("." + "list") + PrintToken(Index(0), false)) == "$.list[0]" && "$" + ("." + "list") == "$.list"
    ensures Printable(Field("a"), true) && Printable(Field("b"), true)
    ensures Printable(Field("list"), true) && Printable(Index(0), false)
  {
    assert Decimal(0) == "0";
  }

  lemma FirstItemRemoved(name: string, first: Json, second: Json, t: Json)
    requires t == Obj(map[name := Arr([first, second])])
    ensures RemoveOne(t, t, [Key(name), At(0)]) == Obj(map[name := Arr([second])])
  {
    var p, c, both := [Key(name), At(0)], [Key(name)], Arr([first, second]);
    assert p == c + [At(0)] && c == [] + [Key(name)] && p[..1] == c && p[1] == At(0) && c[1..] == [];
    EmptyPath(t);
    PathExtend(t, [], Key(name));
    PathExtend(t, c, At(0));
    assert Get(t, c) == Child(t, Key(name)) == both;
    hide HasPath, Get;
    assert DropAt([first, second], 0) == [second];
    assert Put(t, c, Arr([second])) == WithChild(t, Key(name), Arr([second]));
    assert t.fields[name := Arr([second])] == map[name := Arr([second])];
  }

  /** Removing `$.a.b` after copying it to `$.a`: the field is deleted from an object that is in the tree no more. */
  lemma RemovedFromReplacedObject(sprint: Printer, leaf: Json, t: Json, action: Action<Json>)
    requires t == Obj(map["a" := Obj(map["b" := Obj(map["b" := leaf])])])
    requires action == Action("$.a.b", None, Some("$.a"), true)
    ensures ApplyAction(t, action, sprint) == Ok(Obj(map["a" := Obj(map["b" := leaf])]))
  {
    PrintedExamples();
    hide ApplyAction, Printable, PrintToken;
    CopyUpAndRemove(t, "a", Field("b"), true, Key("b"), action, sprint);
    assert t.fields["a" := Obj(map["b" := leaf])] == map["a" := Obj(map["b" := leaf])];
  }

  /** Removing `$.list[0]` after copying it to `$.list`: the copy is lost under the shortened array. */
  lemma ReplacedArrayComesBack(sprint: Printer, first: Json, second: Json, t: Json, action: Action<Json>)
    requires t == Obj(map["list" := Arr([first, second])])
    requires action == Action("$.list[0]", None, Some("$.list"), true)
    ensures ApplyAction(t, action, sprint) == Ok(Obj(map["list" := Arr([second])]))
  {
    PrintedExamples();
    FirstItemRemoved("list", first, second, t);
    hide ApplyAction, Printable, PrintToken, RemoveOne;
    CopyUpAndRemove(t, "list", Index(0), false, At(0), action, sprint);
  }
}
