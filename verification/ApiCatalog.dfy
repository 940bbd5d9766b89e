/** The API catalog crawl of pkg/discovery/api_catalog.go: a depth-first walk over a link graph that may
    hold cycles, following nested api-catalog links (section 4.3 of RFC 9727). */
module ApiCatalog {
  import opened Text
  import opened Wrappers

  type Url = string

  datatype Link = Link(href: string, rel: string)

  datatype Document = Document(linkset: seq<Link>, links: seq<Link>)

  /** What the crawl sees of the network: the documents that can be fetched and decoded, and reference
      resolution. A URL outside `pages` is one whose fetch or decoding fails. */
  datatype Web = Web(pages: map<Url, Document>, resolve: (Url, string) -> Option<Url>) {

    function Links(u: Url): seq<Link>
      requires u in pages
    {
      if |pages[u].linkset| == 0 then pages[u].links else pages[u].linkset
    }

    predicate IsItem(link: Link) {
      "item" in Fields(link.rel)
    }

    predicate IsCatalog(link: Link) {
      !IsItem(link) && "api-catalog" in Fields(link.rel)
    }

    ghost predicate Edge(u: Url, v: Url) {
      u in pages && exists link | link in Links(u) :: IsCatalog(link) && resolve(u, link.href) == Some(v)
    }

    ghost predicate Item(u: Url, service: Url) {
      u in pages && exists link | link in Links(u) :: IsItem(link) && resolve(u, link.href) == Some(service)
    }

    /** A catalog that cannot be read in full: the fetch fails or a link does not resolve. */
    ghost predicate Broken(u: Url) {
      u !in pages || exists link | link in Links(u) :: resolve(u, link.href).None?
    }

    ghost predicate Path(p: seq<Url>) {
      |p| > 0 && forall i | 0 <= i < |p| - 1 :: Edge(p[i], p[i + 1])
    }

    ghost predicate PathBetween(p: seq<Url>, u: Url, v: Url) {
      Path(p) && p[0] == u && p[|p| - 1] == v
    }

    ghost predicate Reaches(u: Url, v: Url) {
      exists p :: PathBetween(p, u, v)
    }

    /** `u` lies on a directed cycle of catalog links; a self-link counts. */
    ghost predicate OnCycle(u: Url) {
      exists v :: Edge(u, v) && Reaches(v, u)
    }

    ghost predicate CycleReachableFrom(root: Url) {
      exists u :: Reaches(root, u) && OnCycle(u)
    }
  }

  lemma ReachesStep(web: Web, u: Url, v: Url, w: Url)
    requires web.Reaches(u, v) && web.Edge(v, w)
    ensures web.Reaches(u, w)
  {
    var p :| web.PathBetween(p, u, v);
    assert web.PathBetween(p + [w], u, w);
  }

  /** A path whose end links back to one of its catalogs closes a cycle through that catalog. */
  lemma LoopIsCycle(web: Web, p: seq<Url>, i: nat)
    requires web.Path(p) && i < |p| && web.Edge(p[|p| - 1], p[i])
    ensures web.OnCycle(p[i])
  {
    var last := p[|p| - 1];
    if i == |p| - 1 {
      assert web.PathBetween([last], last, last);
    } else {
      assert web.PathBetween(p[i + 1..], p[i + 1], last);
      ReachesStep(web, p[i + 1], last, p[i]);
      assert web.Edge(p[i], p[i + 1]);
    }
  }

  ghost predicate NoDuplicates<T(!new)>(s: seq<T>) {
    forall i, j | 0 <= i < j < |s| :: s[i] != s[j]
  }

  ghost predicate SameElements(s: seq<Url>, urls: set<Url>) {
    forall u :: u in s <==> u in urls
  }

  /** Every link of a finished catalog has been followed. */
  ghost predicate Followed(web: Web, u: Url, visited: set<Url>, serviceSet: set<Url>) {
    && !web.Broken(u)
    && (forall v | web.Edge(u, v) :: v in visited)
    && (forall s | web.Item(u, s) :: s in serviceSet)
  }

  /** Targets come before the catalogs that link to them. */
  ghost predicate Topological(web: Web, order: seq<Url>) {
    forall i, v | 0 <= i < |order| && web.Edge(order[i], v) :: v in order[..i]
  }

  /** A catalog all of whose targets are in the order can be put at its end. */
  lemma TopologicalGrows(web: Web, order: seq<Url>, u: Url)
    requires Topological(web, order) && forall v | web.Edge(u, v) :: v in order
    ensures Topological(web, order + [u])
  {
    var more := order + [u];
    forall i, v | 0 <= i < |more| && web.Edge(more[i], v)
      ensures v in more[..i]
    {
      if i < |order| {
        assert more[i] == order[i] && more[..i] == order[..i];
      } else {
        assert more[..i] == order;
      }
    }
  }

  /** A set closed under catalog links holds everything reachable from its members. */
  lemma {:induction false} ClosedHoldsReachable(web: Web, closed: set<Url>, p: seq<Url>)
    requires forall u, v | u in closed && web.Edge(u, v) :: v in closed
    requires web.Path(p) && p[0] in closed
    ensures p[|p| - 1] in closed
    decreases |p|
  {
    if |p| > 1 {
      assert web.Edge(p[0], p[1]);
      ClosedHoldsReachable(web, closed, p[1..]);
    }
  }

  /** Along a path a topological order only moves towards the front. */
  lemma {:induction false} TopologicalDescends(web: Web, order: seq<Url>, p: seq<Url>, i: nat) returns (j: nat)
    requires Topological(web, order)
    requires web.Path(p) && i < |order| && order[i] == p[0]
    ensures j <= i && order[j] == p[|p| - 1]
    decreases |p|
  {
    if |p| == 1 {
      j := i;
    } else {
      assert web.Edge(p[0], p[1]);
      var k :| 0 <= k < i && order[k] == p[1];
      j := TopologicalDescends(web, order, p[1..], k);
    }
  }

  /** A duplicate-free topological order leaves no room for a cycle. */
  lemma TopologicalHasNoCycle(web: Web, order: seq<Url>, u: Url)
    requires Topological(web, order) && NoDuplicates(order) && u in order
    ensures !web.OnCycle(u)
  {
    if web.OnCycle(u) {
      var v :| web.Edge(u, v) && web.Reaches(v, u);
      var p :| web.PathBetween(p, v, u);
      var i :| 0 <= i < |order| && order[i] == u;
      var k :| 0 <= k < i && order[k] == v;
      var j := TopologicalDescends(web, order, p, k);
      assert false;
    }
  }

  /** The variables that `visit` closes over. `path` and `finished` are the ghost history of the walk:
      the catalogs being expanded, outermost first, and the ones left, in the order they were left. */
  class Crawl {
    const web: Web
    const root: Url
    var visited: set<Url>
    var stack: set<Url>
    var serviceSet: set<Url>
    var services: seq<Url>
    var fetches: seq<Url>
    var warnings: seq<Url>
    ghost var path: seq<Url>
    ghost var finished: seq<Url>

    constructor (web: Web, root: Url)
      ensures this.web == web && this.root == root
      ensures Valid() && path == [] && finished == [] && visited == {} && warnings == []
    {
      this.web, this.root := web, root;
      visited, stack, serviceSet := {}, {}, {};
      services, fetches, warnings := [], [], [];
      path, finished := [], [];
    }

    ghost predicate ValidPath()
      reads this
    {
      && NoDuplicates(path) && SameElements(path, stack)
      && (path != [] ==> path[0] == root && web.Path(path))
    }

    ghost predicate ValidSets()
      reads this
    {
      && NoDuplicates(finished)
      && (forall u :: u in visited <==> u in stack || u in finished)
      && (forall u | u in stack :: u !in finished)
      && NoDuplicates(fetches) && SameElements(fetches, visited)
      && NoDuplicates(services) && SameElements(services, serviceSet)
    }

    ghost predicate Sound()
      reads this
    {
      && (forall u | u in visited :: web.Reaches(root, u))
      && (forall s | s in serviceSet :: exists u :: u in visited && web.Item(u, s))
      && (forall w | w in warnings :: web.Reaches(root, w) && web.OnCycle(w))
    }

    ghost predicate Complete()
      reads this
    {
      && (forall u | u in finished :: Followed(web, u, visited, serviceSet))
      && (warnings == [] ==> Topological(web, finished))
    }

    ghost predicate Valid()
      reads this
    {
      ValidPath() && ValidSets() && Sound() && Complete()
    }

    ghost predicate Entered(current: Url)
      reads this
    {
      if path == [] then current == root else web.Edge(path[|path| - 1], current)
    }

    /** What a walk only ever adds to. */
    twostate predicate Grown()
      reads this
    {
      && old(visited) <= visited && old(serviceSet) <= serviceSet
      && old(finished) <= finished && old(warnings) <= warnings
    }

    ghost predicate SomeReachableBroken() {
      exists u :: web.Reaches(root, u) && web.Broken(u)
    }

    /** The recursive closure `visit`; `ok` is false where it returns an error. */
    method Visit(current: Url) returns (ok: bool)
      requires Valid() && Entered(current)
      modifies this
      ensures ok ==> Valid() && Grown() && path == old(path) && stack == old(stack)
      ensures ok ==> current in visited && (warnings == [] ==> current in finished)
      ensures !ok ==> SomeReachableBroken()
      decreases web.pages.Keys - visited, 2
    {
      EnteredIsReachable(current);
      if current in stack {
        WarningIsSound(current);
        warnings := warnings + [current];
        return true;
      }
      if current in visited {
        return true;
      }
      if current !in web.pages {
        visited := visited + {current};
        return false;
      }
      ok := Expand(current);
    }

    /** The part of `visit` that runs for a catalog seen for the first time. */
    method Expand(current: Url) returns (ok: bool)
      requires Valid() && Entered(current)
      requires current in web.pages && current !in visited
      modifies this
      ensures ok ==> Valid() && Grown() && path == old(path) && stack == old(stack)
      ensures ok ==> current in visited && current in finished
      ensures !ok ==> SomeReachableBroken()
      decreases web.pages.Keys - visited, 1
    {
      ghost var unvisited := web.pages.Keys - visited;
      Enter(current);
      var links := web.Links(current);
      var i := 0;
      while i < |links|
        invariant i <= |links|
        invariant Valid() && path == old(path) + [current] && stack == old(stack) + {current}
        invariant current in visited && Grown()
        invariant forall k | 0 <= k < i :: Handled(current, links[k])
      {
        ok := Follow(current, links, i, unvisited);
        if !ok {
          stack := stack - {current};
          return false;
        }
        i := i + 1;
      }
      Leave(current, links);
      ok := true;
    }

    /** One round of the loop over the links of `current`. */
    method Follow(current: Url, links: seq<Link>, i: nat, ghost unvisited: set<Url>) returns (ok: bool)
      requires Valid() && path != [] && path[|path| - 1] == current
      requires current in web.pages && links == web.Links(current) && i < |links|
      requires forall k | 0 <= k < i :: Handled(current, links[k])
      requires web.pages.Keys - visited < unvisited
      modifies this
      ensures ok ==> Valid() && Grown() && path == old(path) && stack == old(stack)
      ensures ok ==> forall k | 0 <= k <= i :: Handled(current, links[k])
      ensures !ok ==> SomeReachableBroken()
      decreases unvisited, 0
    {
      hide ValidPath, ValidSets, Sound, Complete;
      HeadIsReachable();
      var href := web.resolve(current, links[i].href);
      if href.None? {
        assert web.Broken(current);
        return false;
      }
      if web.IsItem(links[i]) {
        assert web.Item(current, href.value);
        AddService(current, href.value);
      } else if web.IsCatalog(links[i]) {
        assert web.Edge(current, href.value);
        ok := Visit(href.value);
        if !ok {
          return false;
        }
      }
      return true;
    }

    /** Appends a service that is not in the set yet. */
    method AddService(ghost current: Url, service: Url)
      requires Valid() && current in visited && web.Item(current, service)
      modifies this
      ensures Valid() && Grown() && path == old(path) && stack == old(stack)
      ensures serviceSet == old(serviceSet) + {service}
    {
      if service !in serviceSet {
        serviceSet := serviceSet + {service};
        services := services + [service];
      }
    }

    /** Marks `current` visited, puts it on the stack and records its fetch. */
    method Enter(current: Url)
      requires Valid() && Entered(current)
      requires current in web.pages && current !in visited
      modifies this
      ensures Valid() && Grown() && current in visited
      ensures path == old(path) + [current] && stack == old(stack) + {current}
      ensures visited == old(visited) + {current}
    {
      EnteredIsReachable(current);
      stack := stack + {current};
      visited := visited + {current};
      fetches := fetches + [current];
      path := path + [current];
    }

    /** The deferred removal from the stack, once every link of `current` has been handled. */
    method Leave(current: Url, ghost links: seq<Link>)
      requires Valid() && path != [] && path[|path| - 1] == current
      requires current in web.pages && links == web.Links(current)
      requires forall k | 0 <= k < |links| :: Handled(current, links[k])
      modifies this
      ensures Valid() && Grown() && current in finished
      ensures path == old(path)[..|old(path)| - 1] && stack == old(stack) - {current}
      ensures visited == old(visited) && warnings == old(warnings)
    {
      FollowedAfterLoop(current, links);
      if warnings == [] {
        TopologicalGrows(web, finished, current);
      }
      assert current in path;
      finished := finished + [current];
      path := path[..|path| - 1];
      stack := stack - {current};
    }

    /** What the loop over the links has done for one link once it is past it. */
    ghost predicate Handled(current: Url, link: Link)
      reads this
    {
      var href := web.resolve(current, link.href);
      && href.Some?
      && (web.IsItem(link) ==> href.value in serviceSet)
      && (web.IsCatalog(link) ==> href.value in visited && (warnings == [] ==> href.value in finished))
    }

    lemma EnteredIsReachable(current: Url)
      requires ValidPath() && Entered(current)
      ensures web.Reaches(root, current)
    {
      if path == [] {
        assert web.PathBetween([root], root, current);
      } else {
        assert web.PathBetween(path, root, path[|path| - 1]);
        ReachesStep(web, root, path[|path| - 1], current);
      }
    }

    /** A link back to a catalog still being expanded closes a cycle. */
    lemma WarningIsSound(current: Url)
      requires ValidPath() && Entered(current) && current in stack
      ensures web.OnCycle(current)
    {
      var i :| 0 <= i < |path| && path[i] == current;
      LoopIsCycle(web, path, i);
    }

    /** The catalog being expanded has been reached. */
    lemma HeadIsReachable()
      requires Valid() && path != []
      ensures path[|path| - 1] in visited && web.Reaches(root, path[|path| - 1])
    {
      assert path[|path| - 1] in path;
    }

    lemma FollowedAfterLoop(current: Url, links: seq<Link>)
      requires current in web.pages && links == web.Links(current)
      requires forall k | 0 <= k < |links| :: Handled(current, links[k])
      ensures Followed(web, current, visited, serviceSet)
      ensures warnings == [] ==> forall v | web.Edge(current, v) :: v in finished
    {
    }
  }

  datatype CatalogResult = CatalogResult(services: seq<Url>, fetches: seq<Url>, warnings: seq<Url>)

  /** `DiscoverAPICatalog`: the crawl fails exactly when a reachable catalog cannot be read; otherwise it has
      fetched exactly the reachable catalogs, each once, lists exactly their items, each once, and warns
      exactly when a cycle is reachable. `order` is the order in which catalogs were left. */
  method DiscoverApiCatalog(web: Web, catalogUrl: Url) returns (result: Option<CatalogResult>, ghost order: seq<Url>)
    ensures result.None? <==> exists u :: web.Reaches(catalogUrl, u) && web.Broken(u)
    ensures result.Some? ==>
              && NoDuplicates(result.value.fetches)
              && forall u :: u in result.value.fetches <==> web.Reaches(catalogUrl, u)
    ensures result.Some? ==>
              && NoDuplicates(result.value.services)
              && forall s :: s in result.value.services <==> exists u :: web.Reaches(catalogUrl, u) && web.Item(u, s)
    ensures result.Some? ==> (result.value.warnings != [] <==> web.CycleReachableFrom(catalogUrl))
    ensures result.Some? ==> forall w | w in result.value.warnings :: web.Reaches(catalogUrl, w) && web.OnCycle(w)
    ensures result.Some? && result.value.warnings == [] ==>
              && Topological(web, order) && NoDuplicates(order)
              && forall u :: u in order <==> web.Reaches(catalogUrl, u)
  {
    var crawl := new Crawl(web, catalogUrl);
    var ok := crawl.Visit(catalogUrl);
    order := crawl.finished;
    if !ok {
      return None, order;
    }
    result := Some(CatalogResult(crawl.services, crawl.fetches, crawl.warnings));
    forall u | web.Reaches(catalogUrl, u)
      ensures u in crawl.visited
    {
      var p :| web.PathBetween(p, catalogUrl, u);
      ClosedHoldsReachable(web, crawl.visited, p);
    }
    if crawl.warnings == [] {
      forall u | web.Reaches(catalogUrl, u)
        ensures !web.OnCycle(u)
      {
        TopologicalHasNoCycle(web, order, u);
      }
    } else {
      assert crawl.warnings[0] in crawl.warnings;
    }
  }
}
