/** Overlays as rewrites of a JSON tree: what pkg/overlay/apply.go means when no node is shared. */
module OverlayTree {
  import opened Wrappers
  import opened OverlayPath

  datatype Scalar = Null | Bool(truth: bool) | Number(digits: string) | Text(text: string)

  datatype Json = Leaf(scalar: Scalar) | Arr(items: seq<Json>) | Obj(fields: map<string, Json>)

  /** One step down a tree. */
  datatype Step = Key(name: string) | At(index: nat)

  type Path = seq<Step>

  predicate Has(t: Json, s: Step) {
    match s
    case Key(name) => t.Obj? && name in t.fields
    case At(index) => t.Arr? && index < |t.items|
  }

  function Child(t: Json, s: Step): (c: Json)
    requires Has(t, s)
    ensures c < t
  {
    match s
    case Key(name) => t.fields[name]
    case At(index) => t.items[index]
  }

  /** Steps at which a child can be put: the present ones, and any new name in an object. */
  predicate Takes(t: Json, s: Step) {
    match s
    case Key(_) => t.Obj?
    case At(index) => t.Arr? && index < |t.items|
  }

  function WithChild(t: Json, s: Step, c: Json): (r: Json)
    requires Takes(t, s)
    ensures Has(r, s) && Child(r, s) == c
    ensures forall s' | s' != s :: Has(r, s') == Has(t, s') && (Has(t, s') ==> Child(r, s') == Child(t, s'))
    ensures Has(t, s) && c == Child(t, s) ==> r == t
  {
    match s
    case Key(name) => Obj(t.fields[name := c])
    case At(index) => Arr(t.items[index := c])
  }

  predicate HasPath(t: Json, p: Path)
    decreases |p|
  {
    p == [] || (Has(t, p[0]) && HasPath(Child(t, p[0]), p[1..]))
  }

  function Get(t: Json, p: Path): Json
    requires HasPath(t, p)
    decreases |p|
  {
    if p == [] then t else Get(Child(t, p[0]), p[1..])
  }

  function Put(t: Json, p: Path, v: Json): Json
    requires HasPath(t, p)
    decreases |p|
  {
    if p == [] then v else WithChild(t, p[0], Put(Child(t, p[0]), p[1..], v))
  }

  lemma {:induction false} PathSplit(t: Json, p: Path, q: Path)
    ensures HasPath(t, p + q) <==> HasPath(t, p) && HasPath(Get(t, p), q)
    ensures HasPath(t, p + q) ==> Get(t, p + q) == Get(Get(t, p), q)
    decreases |p|
  {
    if p == [] {
      assert p + q == q;
    } else {
      assert (p + q)[0] == p[0] && (p + q)[1..] == p[1..] + q;
      if Has(t, p[0]) {
        PathSplit(Child(t, p[0]), p[1..], q);
      }
    }
  }

  lemma PathExtend(t: Json, p: Path, s: Step)
    ensures HasPath(t, p + [s]) <==> HasPath(t, p) && Has(Get(t, p), s)
    ensures HasPath(t, p + [s]) ==> Get(t, p + [s]) == Child(Get(t, p), s)
  {
    PathSplit(t, p, [s]);
    if HasPath(t, p) {
      var node := Get(t, p);
      assert [s][1..] == [];
      assert HasPath(node, [s]) <==> Has(node, s);
    }
  }

  lemma PathPrefix(t: Json, p: Path, n: nat)
    requires HasPath(t, p) && n <= |p|
    ensures HasPath(t, p[..n])
  {
    PathSplit(t, p[..n], p[n..]);
    assert p[..n] + p[n..] == p;
  }

  lemma {:induction false} PutGet(t: Json, p: Path, v: Json, w: Json)
    requires HasPath(t, p)
    ensures HasPath(Put(t, p, v), p) && Get(Put(t, p, v), p) == v
    ensures Put(Put(t, p, v), p, w) == Put(t, p, w)
    decreases |p|
  {
    if p != [] {
      PutGet(Child(t, p[0]), p[1..], v, w);
      WithChildTwice(t, p[0], Put(Child(t, p[0]), p[1..], v), Put(Child(t, p[0]), p[1..], w));
    }
  }

  lemma {:induction false} PutSame(t: Json, p: Path)
    requires HasPath(t, p)
    ensures Put(t, p, Get(t, p)) == t
    decreases |p|
  {
    if p != [] {
      PutSame(Child(t, p[0]), p[1..]);
    }
  }

  lemma {:induction false} PutExtend(t: Json, r: Path, s: Step, v: Json)
    requires HasPath(t, r) && Has(Get(t, r), s) && HasPath(t, r + [s])
    ensures Put(t, r + [s], v) == Put(t, r, WithChild(Get(t, r), s, v))
    decreases |r|
  {
    if r == [] {
      assert [s][1..] == [];
    } else {
      assert (r + [s])[0] == r[0] && (r + [s])[1..] == r[1..] + [s];
      PutExtend(Child(t, r[0]), r[1..], s, v);
    }
  }

  predicate Unrelated(p: Path, q: Path) {
    !(p <= q) && !(q <= p)
  }

  lemma {:induction false} PutGetOther(t: Json, p: Path, v: Json, q: Path)
    requires HasPath(t, p) && Unrelated(p, q)
    ensures HasPath(Put(t, p, v), q) <==> HasPath(t, q)
    ensures HasPath(t, q) ==> Get(Put(t, p, v), q) == Get(t, q)
    decreases |p|
  {
    if q[0] == p[0] {
      PutGetOther(Child(t, p[0]), p[1..], v, q[1..]);
    }
  }

  lemma WithChildTwice(t: Json, s: Step, c: Json, c': Json)
    requires Takes(t, s)
    ensures WithChild(WithChild(t, s, c), s, c') == WithChild(t, s, c')
  {
  }

  // ---- Matching ---------------------------------------------------------------------------------------------

  /** How `fmt.Sprint` renders a decoded value. */
  type Printer = Json -> string

  /** The test of a filter on one array item; a missing field prints like null. */
  predicate Selected(item: Json, field: string, value: string, sprint: Printer) {
    item.Obj? && sprint(if field in item.fields then item.fields[field] else Leaf(Null)) == value
  }

  function FilterSteps(items: seq<Json>, n: nat, field: string, value: string, sprint: Printer): seq<Step>
    requires n <= |items|
  {
    if n == 0 then []
    else FilterSteps(items, n - 1, field, value, sprint)
         + if Selected(items[n - 1], field, value, sprint) then [At(n - 1)] else []
  }

  /** The steps that one token takes from a node, lowest index first. */
  function StepsFor(t: Json, token: Token, sprint: Printer): seq<Step> {
    match token
    case Field(name) => if Has(t, Key(name)) then [Key(name)] else []
    case Index(index) => if index >= 0 && Has(t, At(index)) then [At(index)] else []
    case Filter(field, value) => if t.Arr? then FilterSteps(t.items, |t.items|, field, value, sprint) else []
  }

  function Extensions(p: Path, steps: seq<Step>): (r: seq<Path>)
    ensures |r| == |steps| && forall i | 0 <= i < |steps| :: r[i] == p + [steps[i]]
  {
    seq(|steps|, i requires 0 <= i < |steps| => p + [steps[i]])
  }

  predicate AllIn(t: Json, paths: seq<Path>) {
    forall i | 0 <= i < |paths| :: HasPath(t, paths[i])
  }

  /** One round of `findMatches`: every node of the list replaced by what the token takes from it. */
  function PathsAfter(t: Json, paths: seq<Path>, token: Token, sprint: Printer): seq<Path>
    requires AllIn(t, paths)
  {
    if paths == [] then []
    else
      var last := |paths| - 1;
      PathsAfter(t, paths[..last], token, sprint)
      + Extensions(paths[last], StepsFor(Get(t, paths[last]), token, sprint))
  }

  /** The matches of a token list, in the order in which `findMatches` returns them. */
  function Select(t: Json, tokens: seq<Token>, sprint: Printer): (paths: seq<Path>)
    ensures AllIn(t, paths)
  {
    if tokens == [] then [[]]
    else
      var before := Select(t, tokens[..|tokens| - 1], sprint);
      PathsAfterIn(t, before, tokens[|tokens| - 1], sprint);
      PathsAfter(t, before, tokens[|tokens| - 1], sprint)
  }

  /** A token accepts a step out of a node. */
  predicate Accepts(t: Json, token: Token, s: Step, sprint: Printer) {
    && Has(t, s)
    && match token
       case Field(name) => s == Key(name)
       case Index(index) => s.At? && s.index == index
       case Filter(field, value) => s.At? && Selected(t.items[s.index], field, value, sprint)
  }

  /** The token at place `i` of a list accepts step `i` of the path. */
  predicate StepMatches(t: Json, p: Path, tokens: seq<Token>, i: nat, sprint: Printer) {
    i < |p| && i < |tokens| && HasPath(t, p[..i]) && Accepts(Get(t, p[..i]), tokens[i], p[i], sprint)
  }

  /** A path matches a token list when each token accepts the step in its place. */
  predicate Matches(t: Json, p: Path, tokens: seq<Token>, sprint: Printer) {
    && |p| == |tokens| && HasPath(t, p)
    && forall i | 0 <= i < |p| :: StepMatches(t, p, tokens, i, sprint)
  }

  /** Array steps with growing indices. */
  predicate Increasing(steps: seq<Step>) {
    forall i, j | 0 <= i < j < |steps| :: steps[i].At? && steps[j].At? && steps[i].index < steps[j].index
  }

  lemma {:induction false} FilterStepsAre(items: seq<Json>, n: nat, field: string, value: string, sprint: Printer)
    requires n <= |items|
    ensures var steps := FilterSteps(items, n, field, value, sprint);
            && Increasing(steps)
            && forall s :: s in steps <==> s.At? && s.index < n && Selected(items[s.index], field, value, sprint)
  {
    if n > 0 {
      FilterStepsAre(items, n - 1, field, value, sprint);
      var before := FilterSteps(items, n - 1, field, value, sprint);
      var tail := if Selected(items[n - 1], field, value, sprint) then [At(n - 1)] else [];
      var steps := before + tail;
      forall i, j | 0 <= i < j < |steps|
        ensures steps[i].At? && steps[j].At? && steps[i].index < steps[j].index
      {
        assert before[i] in before;
      }
    }
  }

  /** `StepsFor` lists exactly the accepted steps, each once, in increasing order of index. */
  lemma StepsForAre(t: Json, token: Token, sprint: Printer)
    ensures forall s :: s in StepsFor(t, token, sprint) <==> Accepts(t, token, s, sprint)
    ensures Increasing(StepsFor(t, token, sprint))
  {
    if token.Filter? && t.Arr? {
      FilterStepsAre(t.items, |t.items|, token.field, token.value, sprint);
    }
  }

  lemma ExtensionsAre(p: Path, steps: seq<Step>, q: Path)
    ensures q in Extensions(p, steps) <==> q != [] && q[..|q| - 1] == p && q[|q| - 1] in steps
  {
    var here := Extensions(p, steps);
    if q in here {
      var i :| 0 <= i < |here| && here[i] == q;
      assert q == p + [steps[i]];
    }
    if q != [] && q[..|q| - 1] == p && q[|q| - 1] in steps {
      var i :| 0 <= i < |steps| && steps[i] == q[|q| - 1];
      assert here[i] == q;
    }
  }

  /** `q` extends a path of the list by a step that the token accepts. */
  predicate Extends(t: Json, paths: seq<Path>, token: Token, q: Path, sprint: Printer) {
    && q != [] && q[..|q| - 1] in paths && HasPath(t, q[..|q| - 1])
    && Accepts(Get(t, q[..|q| - 1]), token, q[|q| - 1], sprint)
  }

  lemma ExtendsLast(t: Json, paths: seq<Path>, token: Token, q: Path, sprint: Printer)
    requires paths != [] && AllIn(t, paths)
    ensures var last := |paths| - 1;
      Extends(t, paths, token, q, sprint) <==>
      || Extends(t, paths[..last], token, q, sprint)
      || q in Extensions(paths[last], StepsFor(Get(t, paths[last]), token, sprint))
  {
    hide StepsFor, Accepts, Get, HasPath;
    var last := |paths| - 1;
    var p := paths[last];
    StepsForAre(Get(t, p), token, sprint);
    ExtensionsAre(p, StepsFor(Get(t, p), token, sprint), q);
    assert paths == paths[..last] + [p];
  }

  lemma {:induction false} PathsAfterIn(t: Json, paths: seq<Path>, token: Token, sprint: Printer)
    requires AllIn(t, paths)
    ensures AllIn(t, PathsAfter(t, paths, token, sprint))
    ensures forall q :: q in PathsAfter(t, paths, token, sprint) <==> Extends(t, paths, token, q, sprint)
    decreases |paths|
  {
    hide StepsFor, Accepts, Get, HasPath, Extensions;
    if paths != [] {
      var last := |paths| - 1;
      PathsAfterIn(t, paths[..last], token, sprint);
      forall q
        ensures q in PathsAfter(t, paths, token, sprint) <==> Extends(t, paths, token, q, sprint)
      {
        ExtendsLast(t, paths, token, q, sprint);
      }
      forall i | 0 <= i < |PathsAfter(t, paths, token, sprint)|
        ensures HasPath(t, PathsAfter(t, paths, token, sprint)[i])
      {
        ExtendedIsThere(t, paths, token, PathsAfter(t, paths, token, sprint)[i], sprint);
      }
    }
  }

  lemma ExtendedIsThere(t: Json, paths: seq<Path>, token: Token, q: Path, sprint: Printer)
    requires Extends(t, paths, token, q, sprint)
    ensures HasPath(t, q)
  {
    hide HasPath, Get;
    PathExtend(t, q[..|q| - 1], q[|q| - 1]);
    assert q[..|q| - 1] + [q[|q| - 1]] == q;
  }

  lemma MatchesLast(t: Json, p: Path, tokens: seq<Token>, sprint: Printer)
    requires tokens != []
    ensures var n := |tokens| - 1;
            Matches(t, p, tokens, sprint) <==>
            && |p| == n + 1 && Matches(t, p[..n], tokens[..n], sprint)
            && Accepts(Get(t, p[..n]), tokens[n], p[n], sprint)
  {
    var n := |tokens| - 1;
    if |p| == n + 1 {
      hide Accepts, HasPath, Get;
      assert p[..n] + [p[n]] == p;
      PathExtend(t, p[..n], p[n]);
      AcceptedIsThere(t, p[..n], tokens[n], p[n], sprint);
      forall i | 0 <= i < n
        ensures StepMatches(t, p[..n], tokens[..n], i, sprint) <==> StepMatches(t, p, tokens, i, sprint)
      {
        assert p[..n][..i] == p[..i] && p[..n][i] == p[i] && tokens[..n][i] == tokens[i];
      }
      assert StepMatches(t, p, tokens, n, sprint) <==>
        HasPath(t, p[..n]) && Accepts(Get(t, p[..n]), tokens[n], p[n], sprint);
      if Matches(t, p, tokens, sprint) {
        assert Matches(t, p[..n], tokens[..n], sprint);
      }
      if Matches(t, p[..n], tokens[..n], sprint) && StepMatches(t, p, tokens, n, sprint) {
        assert Matches(t, p, tokens, sprint);
      }
    }
  }

  lemma AcceptedIsThere(t: Json, p: Path, token: Token, s: Step, sprint: Printer)
    ensures HasPath(t, p) && Accepts(Get(t, p), token, s, sprint) ==> Has(Get(t, p), s)
  {
  }

  /** `findMatches` returns exactly the matching paths. */
  lemma {:induction false} SelectExact(t: Json, tokens: seq<Token>, sprint: Printer, p: Path)
    ensures p in Select(t, tokens, sprint) <==> Matches(t, p, tokens, sprint)
    decreases |tokens|
  {
    if tokens != [] {
      var n := |tokens| - 1;
      PathsAfterIn(t, Select(t, tokens[..n], sprint), tokens[n], sprint);
      MatchesLast(t, p, tokens, sprint);
      if p != [] {
        SelectExact(t, tokens[..n], sprint, p[..|p| - 1]);
      }
    }
  }

  /** No path twice, and paths into one array come in increasing order of index. */
  predicate Ordered(paths: seq<Path>) {
    forall i, j | 0 <= i < j < |paths| :: Before(paths[i], paths[j])
  }

  predicate Before(p: Path, q: Path) {
    && p != q
    && (p != [] && q != [] && p[..|p| - 1] == q[..|q| - 1] ==>
          p[|p| - 1].At? && q[|q| - 1].At? && p[|p| - 1].index < q[|q| - 1].index)
  }

  lemma ExtensionsOrdered(p: Path, steps: seq<Step>)
    requires Increasing(steps)
    ensures Ordered(Extensions(p, steps))
  {
    var here := Extensions(p, steps);
    assert forall i | 0 <= i < |here| :: here[i][..|here[i]| - 1] == p && here[i][|here[i]| - 1] == steps[i];
  }

  lemma OrderedConcat(before: seq<Path>, here: seq<Path>)
    requires Ordered(before) && Ordered(here)
    requires forall q, r | q in before && r in here :: q != r && (q != [] && r != [] ==> q[..|q| - 1] != r[..|r| - 1])
    ensures Ordered(before + here)
  {
    var all := before + here;
    forall i, j | 0 <= i < j < |all|
      ensures Before(all[i], all[j])
    {
      if i < |before| && j >= |before| {
        assert all[i] in before && all[j] in here;
      }
    }
  }

  /** Extensions of earlier paths differ from extensions of a later one, and lie in other containers. */
  lemma ExtensionsApart(t: Json, paths: seq<Path>, token: Token, sprint: Printer, q: Path, steps: seq<Step>, r: Path)
    requires paths != [] && Ordered(paths)
    requires Extends(t, paths[..|paths| - 1], token, q, sprint) && r in Extensions(paths[|paths| - 1], steps)
    ensures q != r && (q != [] && r != [] ==> q[..|q| - 1] != r[..|r| - 1])
  {
    hide Accepts, Get, HasPath;
    var last := |paths| - 1;
    ExtensionsAre(paths[last], steps, r);
    var k :| 0 <= k < last && paths[..last][k] == q[..|q| - 1];
    assert Before(paths[k], paths[last]);
  }

  lemma OrderedPrefix(paths: seq<Path>)
    requires paths != [] && Ordered(paths)
    ensures Ordered(paths[..|paths| - 1])
  {
  }

  lemma {:induction false} PathsAfterOrdered(t: Json, paths: seq<Path>, token: Token, sprint: Printer)
    requires AllIn(t, paths) && Ordered(paths)
    ensures Ordered(PathsAfter(t, paths, token, sprint))
    decreases |paths|
  {
    if paths != [] {
      hide StepsFor, Accepts, Get, HasPath, Extensions, Ordered, Extends;
      var last := |paths| - 1;
      var steps := StepsFor(Get(t, paths[last]), token, sprint);
      var before, here := PathsAfter(t, paths[..last], token, sprint), Extensions(paths[last], steps);
      OrderedPrefix(paths);
      PathsAfterOrdered(t, paths[..last], token, sprint);
      PathsAfterIn(t, paths[..last], token, sprint);
      StepsForAre(Get(t, paths[last]), token, sprint);
      ExtensionsOrdered(paths[last], steps);
      forall q, r | q in before && r in here
        ensures q != r && (q != [] && r != [] ==> q[..|q| - 1] != r[..|r| - 1])
      {
        ExtensionsApart(t, paths, token, sprint, q, steps, r);
      }
      OrderedConcat(before, here);
    } else {
      assert PathsAfter(t, paths, token, sprint) == [];
    }
  }

  lemma {:induction false} SelectOrdered(t: Json, tokens: seq<Token>, sprint: Printer)
    ensures Ordered(Select(t, tokens, sprint))
    decreases |tokens|
  {
    if tokens != [] {
      SelectOrdered(t, tokens[..|tokens| - 1], sprint);
      PathsAfterOrdered(t, Select(t, tokens[..|tokens| - 1], sprint), tokens[|tokens| - 1], sprint);
    }
  }

  /** The matches of one path are pairwise disjoint subtrees. */
  lemma MatchesAreDisjoint(t: Json, tokens: seq<Token>, sprint: Printer, i: nat, j: nat)
    requires i < j < |Select(t, tokens, sprint)|
    ensures Unrelated(Select(t, tokens, sprint)[i], Select(t, tokens, sprint)[j])
  {
    var paths := Select(t, tokens, sprint);
    SelectOrdered(t, tokens, sprint);
    assert Before(paths[i], paths[j]);
    SelectExact(t, tokens, sprint, paths[i]);
    SelectExact(t, tokens, sprint, paths[j]);
  }

  ghost predicate AllUnrelated(paths: seq<Path>) {
    forall i, j | 0 <= i < |paths| && 0 <= j < |paths| && i != j :: Unrelated(paths[i], paths[j])
  }

  lemma MatchesUnrelated(t: Json, tokens: seq<Token>, sprint: Printer)
    ensures AllUnrelated(Select(t, tokens, sprint))
  {
    var paths := Select(t, tokens, sprint);
    forall i, j | 0 <= i < |paths| && 0 <= j < |paths| && i != j
      ensures Unrelated(paths[i], paths[j])
    {
      if i < j {
        MatchesAreDisjoint(t, tokens, sprint, i, j);
      } else {
        MatchesAreDisjoint(t, tokens, sprint, j, i);
      }
    }
  }

  /** The last step of a match is one that the last token accepts. */
  lemma SelectLast(t: Json, tokens: seq<Token>, sprint: Printer, i: nat)
    requires i < |Select(t, tokens, sprint)|
    ensures var p := Select(t, tokens, sprint)[i];
      && |p| == |tokens|
      && (tokens != [] ==>
            HasPath(t, p[..|p| - 1]) && Accepts(Get(t, p[..|p| - 1]), tokens[|tokens| - 1], p[|p| - 1], sprint))
  {
    hide Accepts, Get;
    var p := Select(t, tokens, sprint)[i];
    SelectExact(t, tokens, sprint, p);
    if tokens != [] {
      assert StepMatches(t, p, tokens, |tokens| - 1, sprint);
    }
  }

  /** No path leads through a step that is not there. */
  lemma MissingStep(t: Json, p: Path, s: Step, q: Path)
    requires HasPath(t, p) && !Has(Get(t, p), s) && HasPath(t, q)
    ensures !(p + [s] <= q)
  {
    if p + [s] <= q {
      PathPrefix(t, q, |p| + 1);
      assert q[..|p| + 1] == p + [s];
      PathExtend(t, p, s);
    }
  }

  // ---- Actions ----------------------------------------------------------------------------------------------

  datatype OverlayError = BadPath | UpdateOfNonObject | NoCopySource | BadDestination | CannotRemove

  /** An overlay action; `V` is what the update assigns. */
  datatype Action<V> = Action(target: string, update: Option<map<string, V>>, copyTo: Option<string>, remove: bool)

  /** The update loop over the first `n` matches. */
  function UpdateFirst(t: Json, paths: seq<Path>, n: nat, update: map<string, Json>): (r: Result<Json, OverlayError>)
    requires n <= |paths|
    ensures r.Err? ==> r.error == UpdateOfNonObject
    ensures r.Ok? && t.Obj? ==> r.value.Obj?
  {
    if n == 0 then Ok(t)
    else
      var before := UpdateFirst(t, paths, n - 1, update);
      if before.Err? then before
      else
        var p := paths[n - 1];
        if HasPath(before.value, p) && Get(before.value, p).Obj?
        then Ok(Put(before.value, p, Obj(Get(before.value, p).fields + update)))
        else Err(UpdateOfNonObject)
  }

  function Names(tokens: seq<Token>, n: nat): (p: Path)
    requires n <= |tokens| && forall i | 0 <= i < n :: tokens[i].Field?
    ensures |p| == n && forall i | 0 <= i < n :: p[i] == Key(tokens[i].name)
  {
    seq(n, i requires 0 <= i < n => Key(tokens[i].name))
  }

  /** `setPath` from its `i`-th token on: walk down object fields, creating the missing ones, and put a copy of
      the node that is at `source` by then. Nothing is copied when there is no token at all. */
  function SetPath(t: Json, tokens: seq<Token>, i: nat, source: Path): (r: Result<Json, OverlayError>)
    requires i <= |tokens| && forall k | 0 <= k < i :: tokens[k].Field?
    ensures r.Ok? && t.Obj? ==> r.value.Obj?
    decreases |tokens| - i
  {
    if i == |tokens| then Ok(t)
    else if !tokens[i].Field? then Err(BadDestination)
    else
      var here := Names(tokens, i);
      if !HasPath(t, here) || !Get(t, here).Obj? then Err(BadDestination)
      else
        var node, step := Get(t, here), Key(tokens[i].name);
        if i == |tokens| - 1 then
          if HasPath(t, source) then Ok(Put(t, here, WithChild(node, step, Get(t, source)))) else Err(NoCopySource)
        else if Has(node, step) then SetPath(t, tokens, i + 1, source)
        else SetPath(Put(t, here, WithChild(node, step, Obj(map[]))), tokens, i + 1, source)
  }

  function DropAt(items: seq<Json>, index: nat): seq<Json>
    requires index < |items|
  {
    items[..index] + items[index + 1..]
  }

  /** One call of a `remove` closure. A field is deleted where it is; for an array element, the array is replaced
      by a copy of what the array was when it was matched, without that element. */
  function RemoveOne(matched: Json, t: Json, p: Path): (r: Json)
    ensures matched.Obj? && t.Obj? ==> r.Obj?
  {
    if p == [] then t
    else
      var c := p[..|p| - 1];
      match p[|p| - 1]
      case Key(name) => if HasPath(t, c) && Get(t, c).Obj? then Put(t, c, Obj(Get(t, c).fields - {name})) else t
      case At(index) =>
        if HasPath(t, c) && HasPath(matched, p) then Put(t, c, Arr(DropAt(Element(matched, p), index))) else t
  }

  function Element(matched: Json, p: Path): (items: seq<Json>)
    requires HasPath(matched, p) && p != [] && p[|p| - 1].At?
    ensures p[|p| - 1].index < |items|
  {
    PathPrefix(matched, p, |p| - 1);
    assert p[..|p| - 1] + [p[|p| - 1]] == p;
    PathExtend(matched, p[..|p| - 1], p[|p| - 1]);
    Get(matched, p[..|p| - 1]).items
  }

  /** The remove loop: the first `n` matches, last one first. */
  function RemoveFirst(matched: Json, t: Json, paths: seq<Path>, n: nat): (r: Json)
    requires n <= |paths|
    ensures matched.Obj? && t.Obj? ==> r.Obj?
    decreases n
  {
    if n == 0 then t else RemoveFirst(matched, RemoveOne(matched, t, paths[n - 1]), paths, n - 1)
  }

  function UpdateStep(t: Json, action: Action<Json>, paths: seq<Path>): Result<Json, OverlayError> {
    if action.update.None? then Ok(t) else UpdateFirst(t, paths, |paths|, action.update.value)
  }

  function CopyStep(t: Json, action: Action<Json>, paths: seq<Path>): Result<Json, OverlayError> {
    if action.copyTo.None? then Ok(t)
    else
      var tokens := Parse(action.copyTo.value);
      if tokens.None? then Err(BadPath)
      else if paths == [] then Err(NoCopySource)
      else SetPath(t, tokens.value, 0, paths[0])
  }

  /** The tokens of the copy destination; none where there is no copy. */
  function Destination<V>(action: Action<V>): seq<Token> {
    if action.copyTo.None? || Parse(action.copyTo.value).None? then [] else Parse(action.copyTo.value).value
  }

  /** The destination of a copy does not replace the container of a match, nor anything above it. */
  predicate CopySpares(tokens: seq<Token>, p: Path) {
    tokens == [] || p == []
    || ((forall k | 0 <= k < |tokens| :: tokens[k].Field?) ==> !(Names(tokens, |tokens|) <= p[..|p| - 1]))
  }

  /** From `dest` down to `p` there are only array steps. */
  predicate ThroughArrays(dest: Path, p: Path) {
    dest <= p && forall i | |dest| <= i < |p| :: p[i].At?
  }

  /** The match is an element that the destination reaches through arrays alone. */
  predicate Restores(dest: Path, p: Path) {
    |dest| < |p| && ThroughArrays(dest, p)
  }

  /** Stores `v` at a place whose container is there. */
  function StoreAt(t: Json, p: Path, v: Json): (r: Json)
    requires p != []
    ensures t.Obj? ==> r.Obj?
  {
    var c, s := p[..|p| - 1], p[|p| - 1];
    if HasPath(t, c) && Takes(Get(t, c), s) then Put(t, c, WithChild(Get(t, c), s, v)) else t
  }

  /** The removal of the matches, where `before` is the tree as it was before the copy and `t` the tree after it. The
      closures work on the containers that were captured before the copy. If the copy replaced some of these, they are
      removed from as if there had been no copy, and what was copied stays where it was put, unless a removed match is
      an element that the destination reaches through arrays alone: storing the shortened arrays again, all the way up,
      then brings back what the copy replaced. */
  function RemoveMatches(before: Json, t: Json, tokens: seq<Token>, paths: seq<Path>): (r: Json)
    ensures before.Obj? && t.Obj? ==> r.Obj?
  {
    if forall p | p in paths :: CopySpares(tokens, p) then RemoveFirst(t, t, paths, |paths|)
    else
      var removed, dest := RemoveFirst(before, before, paths, |paths|), Names(tokens, |tokens|);
      if (exists p | p in paths :: Restores(dest, p)) || !HasPath(t, dest) then removed
      else StoreAt(removed, dest, Get(t, dest))
  }

  function RemoveStep(before: Json, t: Json, action: Action<Json>, paths: seq<Path>): Result<Json, OverlayError> {
    if !action.remove then Ok(t)
    else if [] in paths then Err(CannotRemove)
    else Ok(RemoveMatches(before, t, Destination(action), paths))
  }

  function ApplyAction(t: Json, action: Action<Json>, sprint: Printer): Result<Json, OverlayError> {
    var tokens := Parse(action.target);
    if tokens.None? then Err(BadPath)
    else
      var paths := Select(t, tokens.value, sprint);
      var updated := UpdateStep(t, action, paths);
      if updated.Err? then updated
      else
        var copied := CopyStep(updated.value, action, paths);
        if copied.Err? then copied else RemoveStep(updated.value, copied.value, action, paths)
  }

  /** `Apply` as a rewrite of the tree: the first `n` actions in order. */
  function ApplyActions(t: Json, actions: seq<Action<Json>>, n: nat, sprint: Printer): Result<Json, OverlayError>
    requires n <= |actions|
  {
    if n == 0 then Ok(t)
    else
      var before := ApplyActions(t, actions, n - 1, sprint);
      if before.Err? then before else ApplyAction(before.value, actions[n - 1], sprint)
  }

  predicate AllLeaves(update: map<string, Json>) {
    forall k | k in update :: update[k].Leaf?
  }

  /** The action leaves a tree in which nothing is shared: it assigns no object or array to two matches. */
  predicate Faithful(t: Json, action: Action<Json>, sprint: Printer) {
    var tokens := Parse(action.target);
    tokens.Some? && action.update.Some? && |Select(t, tokens.value, sprint)| > 1 ==> AllLeaves(action.update.value)
  }

  /** Each of the first `n` actions is faithful on the tree it meets. */
  predicate FaithfulRun(t: Json, actions: seq<Action<Json>>, n: nat, sprint: Printer)
    requires n <= |actions|
  {
    n == 0
    || (&& FaithfulRun(t, actions, n - 1, sprint)
        && var before := ApplyActions(t, actions, n - 1, sprint);
        before.Ok? ==> Faithful(before.value, actions[n - 1], sprint))
  }

  predicate OnlyUpdates<V>(action: Action<V>) {
    action.copyTo.None? && !action.remove
  }

  /** No action comes to work on shared objects: all are faithful, except perhaps a last one that only updates. */
  predicate FaithfulDocument(t: Json, actions: seq<Action<Json>>, sprint: Printer) {
    || FaithfulRun(t, actions, |actions|, sprint)
    || (actions != [] && FaithfulRun(t, actions, |actions| - 1, sprint) && OnlyUpdates(actions[|actions| - 1]))
  }
}
