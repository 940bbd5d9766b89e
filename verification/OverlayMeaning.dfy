/** What overlay actions do to a document, said without the code. */
module OverlayMeaning {
  import opened Wrappers
  import opened OverlayPath
  import opened OverlayTree
  import opened OverlayRemove
  import opened OverlayEffects

  // `Does` is a relation between a document, an action and a result that speaks only of parsed paths, of matches, and
  // of what stands at which place. `ActionDoes` and `ActionOnce` show that the code's rewriting of trees is the one
  // function with this relation, and `DocumentDoes` shows the same for actions applied one after the other.

  // ---- The order of the matches -----------------------------------------------------------------------------

  /** At step `k` two paths part into one array, the first of them at the smaller index. */
  predicate PartsAt(p: Path, q: Path, k: nat) {
    k < |p| && k < |q| && p[..k] == q[..k] && p[k].At? && q[k].At? && p[k].index < q[k].index
  }

  /** Document order of the matches of one path. */
  predicate Precedes(p: Path, q: Path) {
    exists k: nat | k < |p| :: PartsAt(p, q, k)
  }

  lemma PartsOneWay(p: Path, q: Path, k: nat, j: nat)
    requires PartsAt(p, q, k)
    ensures !PartsAt(q, p, j)
  {
    if j < k {
      assert p[..k][j] == q[..k][j];
    } else if k < j && j <= |p| && j <= |q| {
      assert p[..j][k] == p[k] && q[..j][k] == q[k];
    }
  }

  lemma PrecedesOneWay(p: Path, q: Path)
    requires Precedes(p, q)
    ensures p != q && !Precedes(q, p)
  {
    var k: nat :| k < |p| && PartsAt(p, q, k);
    forall j: nat
      ensures !PartsAt(q, p, j)
    {
      PartsOneWay(p, q, k, j);
    }
  }

  ghost predicate InDocumentOrder(paths: seq<Path>) {
    forall i, j | 0 <= i < j < |paths| :: Precedes(paths[i], paths[j])
  }

  lemma StepKeepsOrder(p: Path, s: Step, q: Path, s': Step)
    requires Precedes(p, q) || (p == q && s.At? && s'.At? && s.index < s'.index)
    ensures Precedes(p + [s], q + [s'])
  {
    if Precedes(p, q) {
      var k: nat :| k < |p| && PartsAt(p, q, k);
      assert (p + [s])[..k] == p[..k] && (q + [s'])[..k] == q[..k];
      assert PartsAt(p + [s], q + [s'], k);
    } else {
      assert (p + [s])[..|p|] == p && (q + [s'])[..|p|] == q;
      assert PartsAt(p + [s], q + [s'], |p|);
    }
  }

  lemma {:induction false} RoundKeepsOrder(t: Json, paths: seq<Path>, token: Token, sprint: Printer)
    requires AllIn(t, paths) && InDocumentOrder(paths)
    ensures InDocumentOrder(PathsAfter(t, paths, token, sprint))
    decreases |paths|
  {
    hide StepsFor, HasPath, Get, Accepts, Precedes;
    if paths != [] {
      var last := |paths| - 1;
      RoundKeepsOrder(t, paths[..last], token, sprint);
      PathsAfterIn(t, paths[..last], token, sprint);
      var steps := StepsFor(Get(t, paths[last]), token, sprint);
      StepsForAre(Get(t, paths[last]), token, sprint);
      var before, here := PathsAfter(t, paths[..last], token, sprint), Extensions(paths[last], steps);
      forall i, j | 0 <= i < j < |before + here|
        ensures Precedes((before + here)[i], (before + here)[j])
      {
        if i >= |before| {
          StepKeepsOrder(paths[last], steps[i - |before|], paths[last], steps[j - |before|]);
        } else if j >= |before| {
          ExtendsEarlier(t, paths, token, before[i], sprint, steps[j - |before|]);
        }
      }
    }
  }

  lemma ExtendsEarlier(t: Json, paths: seq<Path>, token: Token, q: Path, sprint: Printer, s: Step)
    requires paths != [] && InDocumentOrder(paths) && Extends(t, paths[..|paths| - 1], token, q, sprint)
    ensures Precedes(q, paths[|paths| - 1] + [s])
  {
    var last := |paths| - 1;
    var k :| 0 <= k < last && paths[..last][k] == q[..|q| - 1];
    assert q[..|q| - 1] + [q[|q| - 1]] == q;
    StepKeepsOrder(paths[k], q[|q| - 1], paths[last], s);
  }

  /** The list of matches is in document order. */
  lemma {:induction false} SelectInDocumentOrder(t: Json, tokens: seq<Token>, sprint: Printer)
    ensures InDocumentOrder(Select(t, tokens, sprint))
    decreases |tokens|
  {
    if tokens != [] {
      SelectInDocumentOrder(t, tokens[..|tokens| - 1], sprint);
      RoundKeepsOrder(t, Select(t, tokens[..|tokens| - 1], sprint), tokens[|tokens| - 1], sprint);
    }
  }

  /** `p` is the first match. */
  ghost predicate IsFirst(t: Json, tokens: seq<Token>, sprint: Printer, p: Path) {
    Matches(t, p, tokens, sprint) && forall q | Matches(t, q, tokens, sprint) && q != p :: Precedes(p, q)
  }

  /** `p` is the first match in its container. */
  ghost predicate IsFirstThere(t: Json, tokens: seq<Token>, sprint: Printer, p: Path) {
    && Matches(t, p, tokens, sprint) && p != []
    && forall q | Matches(t, q, tokens, sprint) && q != [] && q != p && Init(q) == Init(p) :: Precedes(p, q)
  }

  lemma ListedAreMatches(t: Json, tokens: seq<Token>, sprint: Printer)
    ensures forall p :: p in Select(t, tokens, sprint) <==> Matches(t, p, tokens, sprint)
  {
    forall p
      ensures p in Select(t, tokens, sprint) <==> Matches(t, p, tokens, sprint)
    {
      SelectExact(t, tokens, sprint, p);
    }
  }

  lemma FirstListed(t: Json, tokens: seq<Token>, sprint: Printer)
    requires Select(t, tokens, sprint) != []
    ensures IsFirst(t, tokens, sprint, Select(t, tokens, sprint)[0])
  {
    hide Matches, Select, Precedes;
    var paths := Select(t, tokens, sprint);
    ListedAreMatches(t, tokens, sprint);
    SelectInDocumentOrder(t, tokens, sprint);
    assert paths[0] in paths;
    forall q | Matches(t, q, tokens, sprint) && q != paths[0]
      ensures Precedes(paths[0], q)
    {
      assert q in paths;
      var i :| 0 <= i < |paths| && paths[i] == q;
    }
  }

  lemma FirstOnce(t: Json, tokens: seq<Token>, sprint: Printer, p: Path, p': Path)
    requires IsFirst(t, tokens, sprint, p) && IsFirst(t, tokens, sprint, p')
    ensures p == p'
  {
    hide Matches, Precedes;
    if p != p' {
      PrecedesOneWay(p, p');
    }
  }

  /** The match that heads the list of those in one container is the first there, and no other is. */
  lemma FirstThereListed(t: Json, tokens: seq<Token>, sprint: Printer, i: nat)
    requires tokens != [] && i < |Select(t, tokens, sprint)|
    ensures var paths := Select(t, tokens, sprint);
            && (forall j | 0 <= j < |paths| :: paths[j] != [])
            && (IsFirstThere(t, tokens, sprint, paths[i]) <==>
                  forall j | 0 <= j < i :: Init(paths[j]) != Init(paths[i]))
  {
    hide Matches, Select, Precedes, Init;
    var paths := Select(t, tokens, sprint);
    MatchesRemovable(t, tokens, sprint);
    ListedAreMatches(t, tokens, sprint);
    SelectInDocumentOrder(t, tokens, sprint);
    assert paths[i] in paths;
    if j :| 0 <= j < i && Init(paths[j]) == Init(paths[i]) {
      assert paths[j] in paths;
      PrecedesOneWay(paths[j], paths[i]);
    } else {
      forall q | Matches(t, q, tokens, sprint) && q != [] && q != paths[i] && Init(q) == Init(paths[i])
        ensures Precedes(paths[i], q)
      {
        assert q in paths;
        var k :| 0 <= k < |paths| && paths[k] == q;
      }
    }
  }

  // ---- Trees, place by place --------------------------------------------------------------------------------

  /** At `q` there is a node of the same kind in both trees, or nothing in either. */
  ghost predicate SamePlace(t: Json, t': Json, q: Path) {
    (HasPath(t', q) <==> HasPath(t, q)) && (HasPath(t, q) ==> SameTop(Get(t, q), Get(t', q)))
  }

  /** At `q` there is the same in both trees, or nothing in either. */
  ghost predicate SameThere(t: Json, t': Json, q: Path) {
    (HasPath(t', q) <==> HasPath(t, q)) && (HasPath(t, q) ==> Get(t', q) == Get(t, q))
  }

  ghost predicate SamePlaces(t: Json, t': Json) {
    forall q :: SamePlace(t, t', q)
  }

  /** Trees with the same places are equal. */
  lemma {:induction false} SameTree(t: Json, t': Json)
    requires SamePlaces(t, t')
    ensures t == t'
    decreases t
  {
    assert SamePlace(t, t', []);
    forall s | Has(t, s)
      ensures Child(t, s) == Child(t', s)
    {
      assert Has(t', s);
      ChildPlaces(t, t', s);
      SameTree(Child(t, s), Child(t', s));
    }
    match t
    case Leaf(_) =>
    case Arr(items) =>
      SameLengths(items, t'.items);
      forall i | 0 <= i < |items|
        ensures items[i] == t'.items[i]
      {
        assert Has(t, At(i)) && Child(t, At(i)) == items[i];
      }
    case Obj(fields) =>
      forall k
        ensures k in fields <==> k in t'.fields
        ensures k in fields ==> fields[k] == t'.fields[k]
      {
        assert Has(t, Key(k)) <==> Has(t', Key(k));
        if k in fields {
          assert Child(t, Key(k)) == fields[k];
        }
      }
      assert fields == t'.fields;
  }

  lemma SameLengths(items: seq<Json>, items': seq<Json>)
    requires forall s :: Has(Arr(items), s) <==> Has(Arr(items'), s)
    ensures |items| == |items'|
  {
    if |items| < |items'| {
      assert Has(Arr(items'), At(|items|));
    } else if |items'| < |items| {
      assert Has(Arr(items), At(|items'|));
    }
  }

  lemma ChildPlaces(t: Json, t': Json, s: Step)
    requires SamePlaces(t, t') && Has(t, s) && Has(t', s)
    ensures SamePlaces(Child(t, s), Child(t', s))
  {
    forall q
      ensures SamePlace(Child(t, s), Child(t', s), q)
    {
      assert SamePlace(t, t', [s] + q);
      assert ([s] + q)[0] == s && ([s] + q)[1..] == q;
    }
  }

  /** Below a place that holds the same in both trees, all places are the same. */
  lemma SameBelow(t: Json, t': Json, m: Path, q: Path)
    requires SameThere(t, t', m) && m <= q
    ensures SamePlace(t, t', q)
  {
    hide HasPath, Get;
    assert q == m + q[|m|..];
    PathSplit(t, m, q[|m|..]);
    PathSplit(t', m, q[|m|..]);
  }

  lemma SamePlaceTwice(t: Json, t': Json, t'': Json, q: Path)
    requires SamePlace(t, t', q) && SamePlace(t, t'', q)
    ensures SamePlace(t', t'', q)
  {
  }

  // ---- Updates ----------------------------------------------------------------------------------------------

  /** Some match is not an object. */
  ghost predicate MeetsNonObject(t: Json, tokens: seq<Token>, sprint: Printer) {
    exists p :: Matches(t, p, tokens, sprint) && !Get(t, p).Obj?
  }

  ghost predicate GainsThere(t: Json, u: Json, p: Path, fields: map<string, Json>) {
    HasPath(t, p) && HasPath(u, p) && Get(t, p).Obj? && Get(u, p) == Obj(Get(t, p).fields + fields)
  }

  /** No match is at `q` or above it. */
  ghost predicate ClearOfMatches(t: Json, tokens: seq<Token>, sprint: Printer, q: Path) {
    forall p | Matches(t, p, tokens, sprint) :: !(p <= q)
  }

  /** `u` is `t` where every match has gained the fields, and nothing else has changed. */
  ghost predicate Gains(t: Json, tokens: seq<Token>, sprint: Printer, fields: map<string, Json>, u: Json) {
    && (forall p | Matches(t, p, tokens, sprint) :: GainsThere(t, u, p, fields))
    && (forall q | ClearOfMatches(t, tokens, sprint, q) :: SamePlace(t, u, q))
  }

  lemma GainsOnce(t: Json, tokens: seq<Token>, sprint: Printer, fields: map<string, Json>, u: Json, u': Json)
    requires Gains(t, tokens, sprint, fields, u) && Gains(t, tokens, sprint, fields, u')
    ensures u == u'
  {
    hide Matches, HasPath, Get, SameTop, SamePlace;
    forall q
      ensures SamePlace(u, u', q)
    {
      if p :| Matches(t, p, tokens, sprint) && p <= q {
        assert GainsThere(t, u, p, fields) && GainsThere(t, u', p, fields);
        SameBelow(u, u', p, q);
      } else {
        SamePlaceTwice(t, u, u', q);
      }
    }
    SameTree(u, u');
  }

  lemma UpdateGains(t: Json, tokens: seq<Token>, sprint: Printer, fields: map<string, Json>)
    ensures var paths := Select(t, tokens, sprint);
            var result := UpdateFirst(t, paths, |paths|, fields);
            if MeetsNonObject(t, tokens, sprint) then result == Err(UpdateOfNonObject)
            else result.Ok? && AllIn(result.value, paths) && Gains(t, tokens, sprint, fields, result.value)
  {
    hide HasPath, Get, UpdateFirst, Select, SameTop, Matches;
    var paths := Select(t, tokens, sprint);
    UpdateEffect(t, tokens, fields, sprint);
    ListedAreMatches(t, tokens, sprint);
    var result := UpdateFirst(t, paths, |paths|, fields);
    if result.Ok? {
      forall p | Matches(t, p, tokens, sprint)
        ensures GainsThere(t, result.value, p, fields)
      {
        MatchIsThere(t, p, tokens, sprint);
      }
      forall q | ClearOfMatches(t, tokens, sprint, q)
        ensures SamePlace(t, result.value, q)
      {
        assert forall i | 0 <= i < |paths| :: paths[i] in paths;
        UpdateKeepsTop(t, paths, |paths|, fields, q);
      }
      assert forall i | 0 <= i < |paths| :: paths[i] in paths;
    }
  }

  lemma MatchIsThere(t: Json, p: Path, tokens: seq<Token>, sprint: Printer)
    requires Matches(t, p, tokens, sprint)
    ensures HasPath(t, p) && |p| == |tokens|
  {
  }

  // ---- Copies -----------------------------------------------------------------------------------------------

  /** `c` is `t` with `v` at `dest`; whatever is on the way to `dest` and was not there holds nothing else. */
  ghost predicate Placed(t: Json, dest: Path, v: Json, c: Json) {
    && HasPath(c, dest) && Get(c, dest) == v
    && forall q | Unrelated(dest, q) :: SameThere(t, c, q)
  }

  lemma WayOnce(t: Json, dest: Path, v: Json, c: Json, c': Json, n: nat)
    requires Placed(t, dest, v, c) && Placed(t, dest, v, c') && n < |dest| && dest[n].Key?
    ensures SamePlace(c, c', dest[..n])
  {
    hide HasPath, Get, SameTop;
    var q := dest[..n];
    OnTheWay(c, dest, n);
    OnTheWay(c', dest, n);
    forall s
      ensures Has(Get(c, q), s) <==> Has(Get(c', q), s)
    {
      PathExtend(c, q, s);
      PathExtend(c', q, s);
      if s == dest[n] {
        PathPrefix(c, dest, n + 1);
        PathPrefix(c', dest, n + 1);
        assert dest[..n + 1] == q + [s];
      } else {
        assert (q + [s])[n] == s;
        assert SameThere(t, c, q + [s]) && SameThere(t, c', q + [s]);
      }
    }
    SameObjects(Get(c, q), Get(c', q));
  }

  lemma PlacedOnce(t: Json, tokens: seq<Token>, v: Json, c: Json, c': Json)
    requires forall k | 0 <= k < |tokens| :: tokens[k].Field?
    requires Placed(t, Names(tokens, |tokens|), v, c) && Placed(t, Names(tokens, |tokens|), v, c')
    ensures c == c'
  {
    hide HasPath, Get, SameTop;
    var dest := Names(tokens, |tokens|);
    forall q
      ensures SamePlace(c, c', q)
    {
      if dest <= q {
        SameBelow(c, c', dest, q);
      } else if q <= dest {
        WayOnce(t, dest, v, c, c', |q|);
        assert dest[..|q|] == q;
      } else {
        assert SameThere(t, c, q) && SameThere(t, c', q);
        SameBelow(c, c', q, q);
      }
    }
    SameTree(c, c');
  }

  lemma SameObjects(t: Json, t': Json)
    requires t.Obj? && t'.Obj? && forall s :: Has(t, s) <==> Has(t', s)
    ensures SameTop(t, t')
  {
  }

  /** What has a field under it is an object. */
  lemma OnTheWay(t: Json, dest: Path, n: nat)
    requires HasPath(t, dest) && n < |dest| && dest[n].Key?
    ensures HasPath(t, dest[..n]) && Get(t, dest[..n]).Obj?
  {
    PathPrefix(t, dest, n);
    PathPrefix(t, dest, n + 1);
    assert dest[..n + 1] == dest[..n] + [dest[n]];
    PathExtend(t, dest[..n], dest[n]);
  }

  /** The destination can be reached from token `n` on: all tokens are names, and what there is on the way is an
      object. */
  ghost predicate CanReach(t: Json, tokens: seq<Token>, n: nat) {
    && (forall k | 0 <= k < |tokens| :: tokens[k].Field?)
    && (forall k | n <= k < |tokens| && HasPath(t, Names(tokens, k)) :: Get(t, Names(tokens, k)).Obj?)
  }

  /** An object with the missing objects along a way of names. */
  ghost function Filled(v: Json, way: Path): Json
    decreases |way|
  {
    if way == [] || !Takes(v, way[0]) || way[0].At? then v
    else WithChild(v, way[0], Filled(if Has(v, way[0]) then Child(v, way[0]) else Obj(map[]), way[1..]))
  }

  /** What a copy puts at `dest`: what is at the source, with the objects that the copy created below it. */
  ghost function CopyOf(t: Json, source: Path, dest: Path): Json
    requires HasPath(t, source) && dest != []
  {
    if source < dest then Filled(Get(t, source), Init(dest)[|source|..]) else Get(t, source)
  }

  /** An object created at a missing step leaves what was there, and is empty. */
  lemma Creates(t: Json, here: Path, step: Step, source: Path)
    requires HasPath(t, here) && Get(t, here).Obj? && step.Key? && !Has(Get(t, here), step) && HasPath(t, source)
    ensures var t' := Put(t, here, WithChild(Get(t, here), step, Obj(map[])));
            && !HasPath(t, here + [step]) && !(here + [step] <= source)
            && HasPath(t', here + [step]) && Get(t', here + [step]) == Obj(map[]) && HasPath(t', source)
  {
    hide HasPath, Get, Put, WithChild;
    var node := Get(t, here);
    var node' := WithChild(node, step, Obj(map[]));
    var t' := Put(t, here, node');
    PathExtend(t, here, step);
    PutGet(t, here, node', node);
    PathExtend(t', here, step);
    MissingStep(t, here, step, source);
    if source <= here {
      PathPrefix(t', here, |source|);
      assert here[..|source|] == source;
    } else {
      WithChildElsewhere(t, here, step, Obj(map[]), source);
    }
  }

  /** With the object created, there is nothing further down, as there was nothing before. */
  lemma CreatedReaches(t: Json, t': Json, tokens: seq<Token>, i: nat)
    requires i + 1 < |tokens| && (forall k | 0 <= k <= i :: tokens[k].Field?)
    requires HasPath(t, Names(tokens, i)) && Get(t, Names(tokens, i)).Obj? && !HasPath(t, Names(tokens, i + 1))
    requires HasPath(t', Names(tokens, i + 1)) && Get(t', Names(tokens, i + 1)) == Obj(map[])
    ensures CanReach(t, tokens, i) <==> CanReach(t', tokens, i + 1)
  {
    hide HasPath, Get;
    if forall k | 0 <= k < |tokens| :: tokens[k].Field? {
      forall k | i < k < |tokens|
        ensures !HasPath(t, Names(tokens, k))
        ensures HasPath(t', Names(tokens, k)) ==> k == i + 1
      {
        assert Names(tokens, k)[..i + 1] == Names(tokens, i + 1);
        if HasPath(t, Names(tokens, k)) {
          PathPrefix(t, Names(tokens, k), i + 1);
        }
        if HasPath(t', Names(tokens, k)) && k > i + 1 {
          OnTheWay(t', Names(tokens, k), i + 1);
          PathPrefix(t', Names(tokens, k), i + 2);
          assert Names(tokens, k)[..i + 2] == Names(tokens, i + 1) + [Key(tokens[i + 1].name)];
          PathExtend(t', Names(tokens, i + 1), Key(tokens[i + 1].name));
        }
      }
    }
  }

  /** Whether the walk of a copy succeeds can be said before it. */
  lemma {:induction false} WalkReaches(t: Json, tokens: seq<Token>, i: nat, source: Path)
    requires i <= |tokens| && (forall k | 0 <= k < i :: tokens[k].Field?)
    requires HasPath(t, Names(tokens, i)) && HasPath(t, source)
    ensures if CanReach(t, tokens, i) then SetPath(t, tokens, i, source).Ok?
            else SetPath(t, tokens, i, source) == Err(BadDestination)
    decreases |tokens| - i
  {
    hide HasPath, Get, Put, WithChild;
    if i < |tokens| && tokens[i].Field? && Get(t, Names(tokens, i)).Obj? {
      var here, step := Names(tokens, i), Key(tokens[i].name);
      var node := Get(t, here);
      assert Names(tokens, i + 1) == here + [step];
      PathExtend(t, here, step);
      if i == |tokens| - 1 {
      } else if Has(node, step) {
        WalkReaches(t, tokens, i + 1, source);
      } else {
        Creates(t, here, step, source);
        var t' := Put(t, here, WithChild(node, step, Obj(map[])));
        WalkReaches(t', tokens, i + 1, source);
        CreatedReaches(t, t', tokens, i);
      }
    }
  }

  lemma {:induction false} FilledThere(v: Json, way: Path)
    requires HasPath(v, way)
    ensures Filled(v, way) == v
    decreases |way|
  {
    if way != [] {
      FilledThere(Child(v, way[0]), way[1..]);
    }
  }

  predicate AllKeys(way: Path) {
    forall k | 0 <= k < |way| :: way[k].Key?
  }

  /** Creating one missing object first makes no difference. */
  lemma {:induction false} FilledFrom(v: Json, w: Path, s: Step, rest: Path)
    requires AllKeys(w) && s.Key? && HasPath(v, w) && Get(v, w).Obj? && !Has(Get(v, w), s)
    ensures Filled(Put(v, w, WithChild(Get(v, w), s, Obj(map[]))), w + [s] + rest) == Filled(v, w + [s] + rest)
    decreases |w|
  {
    var way := w + [s] + rest;
    if w == [] {
      assert way[0] == s && way[1..] == rest;
      WithChildTwice(v, s, Obj(map[]), Filled(Obj(map[]), rest));
    } else {
      assert way[0] == w[0] && way[1..] == w[1..] + [s] + rest;
      var child := Child(v, w[0]);
      var child' := Put(child, w[1..], WithChild(Get(v, w), s, Obj(map[])));
      FilledFrom(child, w[1..], s, rest);
      WithChildTwice(v, w[0], child', Filled(child', way[1..]));
    }
  }

  lemma {:induction false} PutUnder(t: Json, m: Path, w: Path, x: Json)
    requires HasPath(t, m + w)
    ensures HasPath(t, m) && HasPath(Get(t, m), w) && Get(t, m + w) == Get(Get(t, m), w)
    ensures HasPath(Put(t, m + w, x), m) && Get(Put(t, m + w, x), m) == Put(Get(t, m), w, x)
    decreases |m|
  {
    if m == [] {
      assert m + w == w;
    } else {
      assert (m + w)[0] == m[0] && (m + w)[1..] == m[1..] + w;
      PutUnder(Child(t, m[0]), m[1..], w, x);
    }
  }

  lemma {:induction false} WalkFills(t: Json, tokens: seq<Token>, i: nat, source: Path)
    requires i < |tokens| && (forall k | 0 <= k < |tokens| :: tokens[k].Field?) && HasPath(t, Names(tokens, i))
    requires SetPath(t, tokens, i, source).Ok? && HasPath(t, source) && source < Names(tokens, |tokens|)
    ensures var t', dest := SetPath(t, tokens, i, source).value, Names(tokens, |tokens|);
            HasPath(t', dest) && Get(t', dest) == CopyOf(t, source, dest)
    decreases |tokens| - i
  {
    hide HasPath, Get, Put, WithChild, Filled;
    var here, step, dest := Names(tokens, i), Key(tokens[i].name), Names(tokens, |tokens|);
    var node := Get(t, here);
    assert Names(tokens, i + 1) == here + [step];
    if i == |tokens| - 1 {
      var node' := WithChild(node, step, Get(t, source));
      PutGet(t, here, node', node);
      PathExtend(Put(t, here, node'), here, step);
      assert Init(dest) == here == source + here[|source|..];
      PathSplit(t, source, here[|source|..]);
      FilledThere(Get(t, source), here[|source|..]);
    } else if Has(node, step) {
      PathExtend(t, here, step);
      WalkFills(t, tokens, i + 1, source);
    } else {
      Creates(t, here, step, source);
      var x := WithChild(node, step, Obj(map[]));
      WalkFills(Put(t, here, x), tokens, i + 1, source);
      FilledAfter(t, here, step, source, Init(dest));
    }
  }

  lemma KeysWithin(way: Path, i: nat, j: nat)
    requires AllKeys(way) && i <= j <= |way|
    ensures AllKeys(way[i..j])
  {
    assert forall k | 0 <= k < j - i :: way[i..j][k] == way[i + k];
  }

  lemma Splits(above: Path, source: Path, here: Path, step: Step)
    requires source <= above && here + [step] <= above && !(here + [step] <= source)
    ensures source <= here && here == source + here[|source|..]
    ensures above[|source|..] == here[|source|..] + [step] + above[|here| + 1..]
    ensures here[|source|..] == above[|source|..|here|]
  {
    PrefixesNest(above, source, here + [step]);
  }

  lemma PrefixesNest(way: Path, p: Path, q: Path)
    requires p <= way && q <= way
    ensures p <= q || q <= p
  {
  }

  lemma FilledAfter(t: Json, here: Path, step: Step, source: Path, above: Path)
    requires HasPath(t, here) && Get(t, here).Obj? && step.Key? && !Has(Get(t, here), step)
    requires HasPath(t, source) && !(here + [step] <= source)
    requires source <= above && here + [step] <= above && AllKeys(above)
    ensures var t' := Put(t, here, WithChild(Get(t, here), step, Obj(map[])));
            && HasPath(t', source)
            && Filled(Get(t', source), above[|source|..]) == Filled(Get(t, source), above[|source|..])
  {
    hide HasPath, Get, Put, WithChild, Filled, AllKeys;
    Splits(above, source, here, step);
    KeysWithin(above, |source|, |here|);
    PutUnder(t, source, here[|source|..], WithChild(Get(t, here), step, Obj(map[])));
    FilledFrom(Get(t, source), here[|source|..], step, above[|here| + 1..]);
  }

  /** A copy of what is at `source`: it fails exactly if the destination cannot be reached. */
  lemma CopyPlaces(t: Json, tokens: seq<Token>, source: Path)
    requires tokens != [] && HasPath(t, source)
    ensures var result := SetPath(t, tokens, 0, source);
            if !CanReach(t, tokens, 0) then result == Err(BadDestination)
            else
              && result.Ok?
              && Placed(t, Names(tokens, |tokens|), CopyOf(t, source, Names(tokens, |tokens|)), result.value)
  {
    hide HasPath, Get, SetPath, Filled;
    assert Names(tokens, 0) == [];
    EmptyPath(t);
    WalkReaches(t, tokens, 0, source);
    if CanReach(t, tokens, 0) {
      var dest := Names(tokens, |tokens|);
      var c := SetPath(t, tokens, 0, source).value;
      forall q
        ensures HasPath(c, dest) && (Unrelated(dest, q) ==> SameThere(t, c, q))
      {
        CopyEffect(t, tokens, source, q);
      }
      if source < dest {
        WalkFills(t, tokens, 0, source);
      } else {
        CopyEffect(t, tokens, source, []);
      }
    }
  }

  // ---- Removals ---------------------------------------------------------------------------------------------

  /** `node'` is `node` without what stood at `s`; items behind it have moved up. */
  ghost predicate Without(node: Json, s: Step, node': Json) {
    match s
    case Key(name) => node.Obj? && node' == Obj(node.fields - {name})
    case At(index) =>
      && node.Arr? && index < |node.items|
      && node' == Arr(node.items[..index] + node.items[index + 1..])
  }

  ghost predicate LosesThere(t: Json, r: Json, p: Path)
    requires p != []
  {
    HasPath(t, Init(p)) && HasPath(r, Init(p)) && Without(Get(t, Init(p)), Last(p), Get(r, Init(p)))
  }

  /** No container of a match is at `q` or above it. */
  ghost predicate ClearOfContainers(t: Json, tokens: seq<Token>, sprint: Printer, q: Path) {
    forall p | Matches(t, p, tokens, sprint) :: p != [] && !(Init(p) <= q)
  }

  /** `r` is `x` where every container of matches in `t` has lost the first of them, and nothing else has changed. */
  ghost predicate Loses(t: Json, tokens: seq<Token>, sprint: Printer, x: Json, r: Json) {
    && (forall p | p != [] && IsFirstThere(t, tokens, sprint, p) :: LosesThere(x, r, p))
    && (forall q | ClearOfContainers(t, tokens, sprint, q) :: SamePlace(x, r, q))
  }

  lemma LosesOnce(t: Json, tokens: seq<Token>, sprint: Printer, x: Json, r: Json, r': Json)
    requires tokens != [] && Loses(t, tokens, sprint, x, r) && Loses(t, tokens, sprint, x, r')
    ensures r == r'
  {
    hide Matches, HasPath, Get, SameTop, SamePlace, Init, Last, IsFirstThere;
    forall q
      ensures SamePlace(r, r', q)
    {
      if ClearOfContainers(t, tokens, sprint, q) {
        SamePlaceTwice(x, r, r', q);
      } else {
        var p :| Matches(t, p, tokens, sprint) && (p == [] || Init(p) <= q);
        var first := FirstBeside(t, tokens, sprint, p);
        assert LosesThere(x, r, first) && LosesThere(x, r', first);
        SameBelow(r, r', Init(first), q);
      }
    }
    SameTree(r, r');
  }

  lemma FirstBeside(t: Json, tokens: seq<Token>, sprint: Printer, p: Path) returns (first: Path)
    requires tokens != [] && Matches(t, p, tokens, sprint)
    ensures p != [] && first != [] && IsFirstThere(t, tokens, sprint, first) && Init(first) == Init(p)
  {
    hide Matches, Select, IsFirstThere, Init;
    var paths := Select(t, tokens, sprint);
    ListedAreMatches(t, tokens, sprint);
    assert p in paths;
    var i :| 0 <= i < |paths| && paths[i] == p;
    FirstThereListed(t, tokens, sprint, i);
    var f := FirstInContainer(paths, i);
    first := paths[f];
    FirstThereListed(t, tokens, sprint, f);
  }

  /** The remove loop over a tree in which every match is still there. */
  lemma LoopLoses(t: Json, tokens: seq<Token>, sprint: Printer, x: Json)
    requires tokens != [] && AllIn(x, Select(t, tokens, sprint))
    ensures var paths := Select(t, tokens, sprint);
            Removable(x, paths) && Loses(t, tokens, sprint, x, RemoveFirst(x, x, paths, |paths|))
  {
    hide Matches, HasPath, Get, RemoveFirst, Select, SameTop, IsFirstThere;
    var paths := Select(t, tokens, sprint);
    MatchesRemovable(t, tokens, sprint);
    ListedAreMatches(t, tokens, sprint);
    var r := RemoveFirst(x, x, paths, |paths|);
    forall p | p != [] && IsFirstThere(t, tokens, sprint, p)
      ensures LosesThere(x, r, p)
    {
      FirstIsMatch(t, tokens, sprint, p);
      assert p in paths;
      var i :| 0 <= i < |paths| && paths[i] == p;
      FirstThereListed(t, tokens, sprint, i);
      PathPrefix(x, p, |p| - 1);
      RemoveHere(x, x, paths, |paths|, i);
      RemovedIsWithout(x, p);
    }
    forall q | ClearOfContainers(t, tokens, sprint, q)
      ensures SamePlace(x, r, q)
    {
      assert forall i | 0 <= i < |paths| :: paths[i] in paths;
      RemoveKeepsTop(x, x, paths, |paths|, q);
    }
  }

  lemma FirstIsMatch(t: Json, tokens: seq<Token>, sprint: Printer, p: Path)
    requires IsFirstThere(t, tokens, sprint, p)
    ensures Matches(t, p, tokens, sprint)
  {
  }

  lemma RemovedIsWithout(t: Json, p: Path)
    requires p != [] && HasPath(t, p)
    ensures HasPath(t, Init(p)) && Without(Get(t, Init(p)), Last(p), Removed(t, p))
  {
    ContainerOf(t, p);
    if Last(p).At? {
      ShortenedIs(t, p);
    }
  }

  /** From `dest` to `p`, which lies below it, there are only array steps. */
  ghost predicate ByArraysAlone(dest: Path, p: Path) {
    dest < p && forall k | |dest| <= k < |p| :: p[k].At?
  }

  /** The destination of the copy is a container of a match or above one. */
  ghost predicate Covers(t: Json, tokens: seq<Token>, sprint: Printer, dest: Path) {
    exists p :: Matches(t, p, tokens, sprint) && p != [] && dest <= Init(p)
  }

  /** Some match lies below the destination, by arrays alone. */
  ghost predicate Uncovers(t: Json, tokens: seq<Token>, sprint: Printer, dest: Path) {
    exists p :: Matches(t, p, tokens, sprint) && ByArraysAlone(dest, p)
  }

  /** `r` is what a removal makes of `c`, which a copy to `to` has made of `u`. The copy may have covered containers of
      matches. The first matches are then lost in what was covered, and that comes back into the tree in place of the
      copy if arrays alone lead down to some match; otherwise the copy stays. */
  ghost predicate Removes(t: Json, tokens: seq<Token>, sprint: Printer, u: Json, to: seq<Token>, c: Json, r: Json)
    requires forall k | 0 <= k < |to| :: to[k].Field?
  {
    var dest := Names(to, |to|);
    if to == [] || !Covers(t, tokens, sprint, dest) then Loses(t, tokens, sprint, c, r)
    else exists r0 ::
      && Loses(t, tokens, sprint, u, r0)
      && if Uncovers(t, tokens, sprint, dest) then r == r0
         else HasPath(c, dest) && Placed(r0, dest, Get(c, dest), r)
  }

  lemma RemovesOnce(t: Json, tokens: seq<Token>, sprint: Printer, u: Json, to: seq<Token>, c: Json, r: Json, r': Json)
    requires tokens != [] && forall k | 0 <= k < |to| :: to[k].Field?
    requires Removes(t, tokens, sprint, u, to, c, r) && Removes(t, tokens, sprint, u, to, c, r')
    ensures r == r'
  {
    hide Loses, Placed, Covers, Uncovers, Get, HasPath;
    var dest := Names(to, |to|);
    if to == [] || !Covers(t, tokens, sprint, dest) {
      LosesOnce(t, tokens, sprint, c, r, r');
    } else {
      var r0 :| Loses(t, tokens, sprint, u, r0) &&
        if Uncovers(t, tokens, sprint, dest) then r == r0
        else HasPath(c, dest) && Placed(r0, dest, Get(c, dest), r);
      var r1 :| Loses(t, tokens, sprint, u, r1) &&
        if Uncovers(t, tokens, sprint, dest) then r' == r1
        else HasPath(c, dest) && Placed(r1, dest, Get(c, dest), r');
      LosesOnce(t, tokens, sprint, u, r0, r1);
      if !Uncovers(t, tokens, sprint, dest) {
        PlacedOnce(r0, to, Get(c, dest), r, r');
      }
    }
  }

  /** A copy keeps every match whose container it does not cover. */
  lemma SparedStays(u: Json, dest: Path, v: Json, c: Json, p: Path)
    requires Placed(u, dest, v, c) && HasPath(u, p) && p != [] && !(dest <= Init(p))
    ensures HasPath(c, p)
  {
    hide HasPath, Get;
    if p <= dest {
      PathPrefix(c, dest, |p|);
      assert dest[..|p|] == p;
    } else {
      BesideOrAbove(dest, p);
      assert SameThere(u, c, p);
    }
  }

  lemma BesideOrAbove(dest: Path, p: Path)
    requires p != [] && !(dest <= Init(p)) && !(p <= dest)
    ensures Unrelated(dest, p)
  {
    if dest <= p {
      UpToContainer(dest, p);
    }
  }

  lemma UpToContainer(dest: Path, p: Path)
    requires dest < p
    ensures dest <= Init(p)
  {
  }

  lemma CoversIff(t: Json, tokens: seq<Token>, sprint: Printer, to: seq<Token>)
    requires tokens != [] && to != [] && forall k | 0 <= k < |to| :: to[k].Field?
    ensures var paths, dest := Select(t, tokens, sprint), Names(to, |to|);
            && (Covers(t, tokens, sprint, dest) <==> exists p | p in paths :: !CopySpares(to, p))
            && (Uncovers(t, tokens, sprint, dest) <==> exists p | p in paths :: Restores(dest, p))
  {
    hide Matches, Select;
    ListedAreMatches(t, tokens, sprint);
    var paths, dest := Select(t, tokens, sprint), Names(to, |to|);
    forall p | p in paths
      ensures p != [] && (CopySpares(to, p) <==> !(dest <= Init(p)))
      ensures Restores(dest, p) <==> ByArraysAlone(dest, p)
    {
      MatchIsThere(t, p, tokens, sprint);
    }
  }

  /** `RemoveMatches` is that removal. */
  lemma RemovalRemoves(t: Json, tokens: seq<Token>, sprint: Printer, u: Json, to: seq<Token>, source: Path, c: Json)
    requires tokens != [] && AllIn(u, Select(t, tokens, sprint)) && forall k | 0 <= k < |to| :: to[k].Field?
    requires if to == [] then c == u
             else && HasPath(u, source) && SetPath(u, to, 0, source) == Ok(c)
                  && Placed(u, Names(to, |to|), CopyOf(u, source, Names(to, |to|)), c)
    ensures Removes(t, tokens, sprint, u, to, c, RemoveMatches(u, c, to, Select(t, tokens, sprint)))
  {
    hide Matches, HasPath, Get, SetPath, Select, Loses, Covers, Uncovers, CopySpares, Restores, RemoveFirst, StoreAt,
      CopyOf;
    var paths, dest := Select(t, tokens, sprint), Names(to, |to|);
    LoopLoses(t, tokens, sprint, u);
    if to == [] {
      assert forall p | p in paths :: CopySpares(to, p) by {
        SparesNothing(paths);
      }
    } else {
      CoversIff(t, tokens, sprint, to);
      if i: nat :| i < |paths| && !CopySpares(to, paths[i]) {
        CoveredRemoves(t, tokens, sprint, u, to, source, i);
      } else {
        forall i | 0 <= i < |paths|
          ensures HasPath(c, paths[i])
        {
          assert paths[i] in paths && CopySpares(to, paths[i]) && paths[i] != [];
          SparesIs(to, paths[i]);
          SparedStays(u, dest, CopyOf(u, source, dest), c, paths[i]);
        }
        assert forall p | p in paths :: CopySpares(to, p);
        LoopLoses(t, tokens, sprint, c);
      }
    }
  }

  lemma SparesNothing(paths: seq<Path>)
    ensures forall p | p in paths :: CopySpares([], p)
  {
  }

  lemma SparesIs(to: seq<Token>, p: Path)
    requires to != [] && p != [] && (forall k | 0 <= k < |to| :: to[k].Field?) && CopySpares(to, p)
    ensures !(Names(to, |to|) <= Init(p))
  {
  }

  lemma CoveredRemoves(t: Json, tokens: seq<Token>, sprint: Printer, u: Json, to: seq<Token>, source: Path, i: nat)
    requires tokens != [] && to != [] && forall k | 0 <= k < |to| :: to[k].Field?
    requires AllIn(u, Select(t, tokens, sprint)) && SetPath(u, to, 0, source).Ok?
    requires i < |Select(t, tokens, sprint)| && !CopySpares(to, Select(t, tokens, sprint)[i])
    ensures var c := SetPath(u, to, 0, source).value;
            Removes(t, tokens, sprint, u, to, c, RemoveMatches(u, c, to, Select(t, tokens, sprint)))
  {
    hide Matches, HasPath, Get, SetPath, Select, Loses, Covers, Uncovers, CopySpares, Restores, RemoveFirst,
      RemoveMatches;
    var paths, dest := Select(t, tokens, sprint), Names(to, |to|);
    var c := SetPath(u, to, 0, source).value;
    LoopLoses(t, tokens, sprint, u);
    CoversIff(t, tokens, sprint, to);
    assert paths[i] in paths;
    var r := RemoveMatches(u, c, to, paths);
    var r0 := RemoveFirst(u, u, paths, |paths|);
    RemoveAfterCopy(u, to, source, paths, i, []);
    if !Uncovers(t, tokens, sprint, dest) {
      forall q | Unrelated(dest, q)
        ensures SameThere(r0, r, q)
      {
        RemoveAfterCopy(u, to, source, paths, i, q);
      }
    }
    assert Covers(t, tokens, sprint, dest);
    assert Loses(t, tokens, sprint, u, r0);
    assert !Uncovers(t, tokens, sprint, dest) ==> Placed(r0, dest, Get(c, dest), r);
  }

  // ---- Actions ----------------------------------------------------------------------------------------------

  /** What a removal, if the action has one, makes of `c`. */
  ghost predicate DoesRemove(t: Json, tokens: seq<Token>, action: Action<Json>, sprint: Printer, u: Json,
                             to: seq<Token>, c: Json, result: Result<Json, OverlayError>)
    requires forall k | 0 <= k < |to| :: to[k].Field?
  {
    if !action.remove then result == Ok(c)
    else if Matches(t, [], tokens, sprint) then result == Err(CannotRemove)
    else result.Ok? && Removes(t, tokens, sprint, u, to, c, result.value)
  }

  /** `source` is the first match, `c` is `u` with the copy of what stands there at the destination, and the removal
      makes `result` of `c`. A destination without tokens copies nothing. */
  ghost predicate DoesPlace(t: Json, tokens: seq<Token>, action: Action<Json>, sprint: Printer, u: Json,
                            to: seq<Token>, source: Path, c: Json, result: Result<Json, OverlayError>)
    requires forall k | 0 <= k < |to| :: to[k].Field?
  {
    && IsFirst(t, tokens, sprint, source) && HasPath(u, source)
    && (if to == [] then c == u else Placed(u, Names(to, |to|), CopyOf(u, source, Names(to, |to|)), c))
    && DoesRemove(t, tokens, action, sprint, u, to, c, result)
  }

  /** What the copy, if the action has one, and then the removal make of `u`. */
  ghost predicate DoesCopy(t: Json, tokens: seq<Token>, action: Action<Json>, sprint: Printer, u: Json,
                           result: Result<Json, OverlayError>) {
    if action.copyTo.None? then DoesRemove(t, tokens, action, sprint, u, [], u, result)
    else if Parse(action.copyTo.value).None? then result == Err(BadPath)
    else if !exists p :: Matches(t, p, tokens, sprint) then result == Err(NoCopySource)
    else
      var to := Parse(action.copyTo.value).value;
      if to != [] && !CanReach(u, to, 0) then result == Err(BadDestination)
      else exists source, c :: DoesPlace(t, tokens, action, sprint, u, to, source, c, result)
  }

  /** What an action does to the document `t`: it fails on a path that does not parse; it fails on an update of a
      match that is not an object; otherwise every match gains the update, the copy and the removal follow. */
  ghost predicate Does(t: Json, action: Action<Json>, sprint: Printer, result: Result<Json, OverlayError>) {
    if Parse(action.target).None? then result == Err(BadPath)
    else
      var tokens := Parse(action.target).value;
      if action.update.None? then DoesCopy(t, tokens, action, sprint, t, result)
      else if MeetsNonObject(t, tokens, sprint) then result == Err(UpdateOfNonObject)
      else exists u ::
        Gains(t, tokens, sprint, action.update.value, u) && DoesCopy(t, tokens, action, sprint, u, result)
  }

  /** What the first `n` actions do, one after the other: the first that fails decides. */
  ghost predicate DoesAll(t: Json, actions: seq<Action<Json>>, n: nat, sprint: Printer,
                          result: Result<Json, OverlayError>)
    requires n <= |actions|
  {
    if n == 0 then result == Ok(t)
    else exists before ::
      && DoesAll(t, actions, n - 1, sprint, before)
      && if before.Err? then result == before else Does(before.value, actions[n - 1], sprint, result)
  }

  lemma RootMatchesIff(t: Json, tokens: seq<Token>, sprint: Printer)
    ensures Matches(t, [], tokens, sprint) <==> tokens == []
    ensures Matches(t, [], tokens, sprint) <==> [] in Select(t, tokens, sprint)
  {
    SelectExact(t, tokens, sprint, []);
  }

  lemma RemovalDoes(t: Json, tokens: seq<Token>, action: Action<Json>, sprint: Printer, u: Json, source: Path, c: Json)
    requires AllIn(u, Select(t, tokens, sprint))
    requires forall k | 0 <= k < |Destination(action)| :: Destination(action)[k].Field?
    requires var to := Destination(action);
             if to == [] then c == u
             else && HasPath(u, source) && SetPath(u, to, 0, source) == Ok(c)
                  && Placed(u, Names(to, |to|), CopyOf(u, source, Names(to, |to|)), c)
    ensures DoesRemove(t, tokens, action, sprint, u, Destination(action), c,
                       RemoveStep(u, c, action, Select(t, tokens, sprint)))
  {
    hide Matches, HasPath, Get, SetPath, Select, Placed, CopyOf, RemoveMatches, Removes, Destination;
    RootMatchesIff(t, tokens, sprint);
    if tokens != [] {
      RemovalRemoves(t, tokens, sprint, u, Destination(action), source, c);
    }
  }

  lemma CopyDoes(t: Json, tokens: seq<Token>, action: Action<Json>, sprint: Printer, u: Json)
    requires AllIn(u, Select(t, tokens, sprint))
    ensures var paths := Select(t, tokens, sprint);
            var copied := CopyStep(u, action, paths);
            DoesCopy(t, tokens, action, sprint, u,
                     if copied.Err? then copied else RemoveStep(u, copied.value, action, paths))
  {
    hide Matches, HasPath, Get, SetPath, Select, Placed, CopyOf, RemoveStep, DoesRemove, Parse, IsFirst, CanReach;
    var paths := Select(t, tokens, sprint);
    ListedAreMatches(t, tokens, sprint);
    if action.copyTo.None? {
      RemovalDoes(t, tokens, action, sprint, u, [], u);
    } else if Parse(action.copyTo.value).Some? && paths != [] {
      var to := Parse(action.copyTo.value).value;
      FirstListed(t, tokens, sprint);
      assert paths[0] in paths;
      if to == [] {
        assert SetPath(u, to, 0, paths[0]) == Ok(u) by {
          NothingToWalk(u, paths[0]);
        }
        RemovalDoes(t, tokens, action, sprint, u, paths[0], u);
        assert DoesPlace(t, tokens, action, sprint, u, to, paths[0], u, RemoveStep(u, u, action, paths));
      } else {
        CopyPlaces(u, to, paths[0]);
        if CanReach(u, to, 0) {
          ReachesByNames(u, to);
          var c := SetPath(u, to, 0, paths[0]).value;
          RemovalDoes(t, tokens, action, sprint, u, paths[0], c);
          assert DoesPlace(t, tokens, action, sprint, u, to, paths[0], c, RemoveStep(u, c, action, paths));
        }
      }
    }
  }

  lemma NothingToWalk(t: Json, source: Path)
    ensures SetPath(t, [], 0, source) == Ok(t)
  {
  }

  lemma ReachesByNames(t: Json, tokens: seq<Token>)
    requires CanReach(t, tokens, 0)
    ensures forall k | 0 <= k < |tokens| :: tokens[k].Field?
  {
  }

  /** The code's rewriting of trees does what an action does. */
  lemma ActionDoes(t: Json, action: Action<Json>, sprint: Printer)
    ensures Does(t, action, sprint, ApplyAction(t, action, sprint))
  {
    hide Matches, HasPath, Get, Select, CopyStep, RemoveStep, UpdateFirst, DoesCopy, Parse, Gains;
    if Parse(action.target).Some? {
      var tokens := Parse(action.target).value;
      var paths := Select(t, tokens, sprint);
      if action.update.None? {
        CopyDoes(t, tokens, action, sprint, t);
      } else {
        UpdateGains(t, tokens, sprint, action.update.value);
        if !MeetsNonObject(t, tokens, sprint) {
          CopyDoes(t, tokens, action, sprint, UpdateFirst(t, paths, |paths|, action.update.value).value);
        }
      }
    }
  }

  lemma RemoveOnce(t: Json, tokens: seq<Token>, action: Action<Json>, sprint: Printer, u: Json, to: seq<Token>, c: Json,
                   r: Result<Json, OverlayError>, r': Result<Json, OverlayError>)
    requires forall k | 0 <= k < |to| :: to[k].Field?
    requires DoesRemove(t, tokens, action, sprint, u, to, c, r) && DoesRemove(t, tokens, action, sprint, u, to, c, r')
    ensures r == r'
  {
    hide Matches, Removes;
    RootMatchesIff(t, tokens, sprint);
    if action.remove && tokens != [] {
      RemovesOnce(t, tokens, sprint, u, to, c, r.value, r'.value);
    }
  }

  lemma CopyOnce(t: Json, tokens: seq<Token>, action: Action<Json>, sprint: Printer, u: Json,
                 r: Result<Json, OverlayError>, r': Result<Json, OverlayError>)
    requires DoesCopy(t, tokens, action, sprint, u, r) && DoesCopy(t, tokens, action, sprint, u, r')
    ensures r == r'
  {
    hide Matches, DoesRemove, Parse, DoesPlace, CanReach;
    if action.copyTo.None? {
      RemoveOnce(t, tokens, action, sprint, u, [], u, r, r');
    } else if Parse(action.copyTo.value).Some? && exists p :: Matches(t, p, tokens, sprint) {
      var to := Parse(action.copyTo.value).value;
      if to == [] || CanReach(u, to, 0) {
        if to != [] {
          ReachesByNames(u, to);
        }
        var source, c :| DoesPlace(t, tokens, action, sprint, u, to, source, c, r);
        var source', c' :| DoesPlace(t, tokens, action, sprint, u, to, source', c', r');
        PlaceOnce(t, tokens, action, sprint, u, to, source, c, r, source', c', r');
      }
    }
  }

  lemma PlaceOnce(t: Json, tokens: seq<Token>, action: Action<Json>, sprint: Printer, u: Json, to: seq<Token>,
                  source: Path, c: Json, r: Result<Json, OverlayError>,
                  source': Path, c': Json, r': Result<Json, OverlayError>)
    requires forall k | 0 <= k < |to| :: to[k].Field?
    requires DoesPlace(t, tokens, action, sprint, u, to, source, c, r)
    requires DoesPlace(t, tokens, action, sprint, u, to, source', c', r')
    ensures r == r'
  {
    hide IsFirst, DoesRemove, Placed, CopyOf, HasPath;
    FirstOnce(t, tokens, sprint, source, source');
    if to != [] {
      PlacedOnce(u, to, CopyOf(u, source, Names(to, |to|)), c, c');
    }
    RemoveOnce(t, tokens, action, sprint, u, to, c, r, r');
  }

  /** And there is only one result that an action can have. */
  lemma ActionOnce(t: Json, action: Action<Json>, sprint: Printer, r: Result<Json, OverlayError>,
                   r': Result<Json, OverlayError>)
    requires Does(t, action, sprint, r) && Does(t, action, sprint, r')
    ensures r == r'
  {
    hide Parse, MeetsNonObject, DoesCopy, Gains;
    if Parse(action.target).Some? {
      var tokens := Parse(action.target).value;
      if action.update.None? {
        CopyOnce(t, tokens, action, sprint, t, r, r');
      } else if !MeetsNonObject(t, tokens, sprint) {
        var fields := action.update.value;
        var u :| Gains(t, tokens, sprint, fields, u) && DoesCopy(t, tokens, action, sprint, u, r);
        var u' :| Gains(t, tokens, sprint, fields, u') && DoesCopy(t, tokens, action, sprint, u', r');
        GainsOnce(t, tokens, sprint, fields, u, u');
        CopyOnce(t, tokens, action, sprint, u, r, r');
      }
    }
  }

  /** A list of actions: the rewriting has exactly the result that the actions have one after the other. */
  lemma {:induction false} DocumentDoes(t: Json, actions: seq<Action<Json>>, n: nat, sprint: Printer,
                                        result: Result<Json, OverlayError>)
    requires n <= |actions|
    ensures DoesAll(t, actions, n, sprint, result) <==> result == ApplyActions(t, actions, n, sprint)
    decreases n
  {
    hide Does, ApplyAction;
    if n > 0 {
      var m, before := n - 1, ApplyActions(t, actions, n - 1, sprint);
      forall other
        ensures DoesAll(t, actions, m, sprint, other) <==> other == before
      {
        DocumentDoes(t, actions, m, sprint, other);
      }
      if before.Ok? {
        ActionDoes(before.value, actions[n - 1], sprint);
        if Does(before.value, actions[n - 1], sprint, result) {
          ActionOnce(before.value, actions[n - 1], sprint, result, ApplyAction(before.value, actions[n - 1], sprint));
        }
      }
    }
  }
}
