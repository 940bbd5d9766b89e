# Verified models of the open-cli core

This project models the stateful cores of the open-cli repository in Dafny and proves what they are for. Each module
follows one component:

- `ApiCatalog`: the recursive crawl of API catalogs over a possibly cyclic graph of links (section 4.3 of RFC 9727).
- `OverlayPath`, `OverlayTree`, `OverlayHeap`, `OverlayRemove`, `OverlayEffects`, `OverlayUpdate`, `OverlayApply`: the
  overlay engine, from the parser of its JSONPath subset (sections 2.3.1, 2.3.3 and 2.3.5 of RFC 9535) over the in-place
  rewriting of Go maps and slices through captured closures to the pure rewriting of trees that it refines.
- `HttpCache`: the revalidating cache over its two-file store (sections 4.2, 4.2.4, 4.3.1 and 4.3.4 of RFC 9111).
- `TransportToken`: the token cache of an MCP transport under concurrent callers (sections 4.4 and 6 of RFC 6749).
- `SessionLease` and `LeaseTracker`: leases whose timers may fire after they were superseded, and the drain before
  shutdown.
- `Authorization`: from scopes to tools, to the filtered catalog, to the gates of the handlers.
- `ConfigLists` and `SourceMerge`: the merge of the four configuration scopes.
- `McpOpenApi` and `OperationNames`: the naming of operations and the document of an MCP server.
- `LinkHeader` (section 3 of RFC 8288), `PathTemplate`, `AuthPlan`: the parsing of Link headers, the filling of path
  templates, the choice among auth alternatives.
- `Text` and `Wrappers`: string helpers of the Go library, and option and result types.

Beside these stand modules that say what the components mean to someone who sees only what goes in and what comes out.
Their theorems speak of inputs, replies and results, and not of the functions that specify the methods:

- `OverlayMeaning`: what an action, and a list of actions, does to a document, place by place; `OverlayGrammar`: which
  text spells which path.
- `CacheLifetime` and `TokenLifetime`: how long a reply or a token is used, over whole runs; `LeaseTiming`: when a lease
  and a drain end.
- `SourceFields`: which file the value of a field of a source comes from.
- `AuthorizationRules`: who may do what, by scopes and configuration entries; `OperationLaws` and `SlugLaws`: what
  operations are called; `LinkGrammar`, `TextLaws` and `LinkReading`: what Link headers and catalog documents say.

Code that changes things step by step is a method, or a class whose fields the methods update, proved against a
specification function. Concurrent protocols are state machines whose steps are the critical sections, the atomic
operations and the clock readings; theorems about them hold in every state of every run, and the classes
`Transport`, `Server` and `Tracker` perform the same steps in place. Time is a number of nanoseconds that only moves
forward, a string is a sequence of characters.

Places where the code does less than one might expect are stated as lemmas with a concrete input, next to the exact
condition under which it does what is expected, or to what it does instead on every input:

- a removal leaves a match: `OverlayEffects.RemoveLeavesAMatch`, and `RemoveDeletesAllIff`;
- a copy differs from its source: `OverlayEffects.CopyIntoItself`, and `CopyEffect`;
- a removal after a copy over its containers: `OverlayEffects.RemovedFromReplacedObject` and `ReplacedArrayComesBack`,
  and `RemoveAfterCopy`;
- a value shared by two matches: `OverlayUpdate.SharedUpdateShowsTwice`, and `WrittenReads`;
- a lifetime that wraps around: `HttpCache.MaxAgeIsSecondsIff`;
- scopes that take tools away: `AuthorizationRules.BundleTakesAway`, and `MoreScopesLoseIff`;
- a workflow that is seen but refused: `Authorization.DuplicateWorkflowIsRefused`, and `SeenWorkflowPassesIff`;
- a disabled source that comes back: `SourceMerge.LoneDisableIsForgotten`, and `EnabledKeptIff`;
- operations with one ID or one path: `McpOpenApi.ThreeOfAName`, and `OperationNames.NamesDistinctIff`,
  `IdsDistinctIffNoThree`, `PathsDistinctIffNoThree` and `DocumentHoldsAllIff`;
- a disabled tool that fails the build: `McpOpenApi.DisabledToolsDoNotMatterIff`.

`dafny verify dfyconfig.toml` checks the whole project.

## Model

| member | source | states |
|---|---|---|
| `ApiCatalog.DiscoverApiCatalog` | pkg/discovery/api_catalog.go:25-109 | Fails if and only if some catalog reachable from the root cannot be fetched, decoded or resolved. On success it has fetched exactly the reachable catalogs, each once; its services are exactly the item targets of those catalogs, each once; it warns if and only if a directed cycle of catalog links is reachable, and every warning names a catalog on a cycle; without a warning, the order in which catalogs are left is a topological order of the reachable graph |
| `ApiCatalog.Crawl.Visit` | pkg/discovery/api_catalog.go:39-102 | Each recursive visit keeps the crawl invariant, only adds to the visited, fetched, service and warning lists, restores the stack, and terminates on every finite graph, cyclic or not; if it fails, a broken catalog is reachable |
| `ApiCatalog.Crawl.Expand` | pkg/discovery/api_catalog.go:51-101 | Entering a catalog, following all its links and leaving it restores path and stack, and leaves every link followed |
| `ApiCatalog.Crawl.Follow` | pkg/discovery/api_catalog.go:80-99 | One turn of the loop over links: items are listed once, catalog links are visited, an unresolvable link makes the catalog a reachable broken one |
| `ApiCatalog.ClosedHoldsReachable` | pkg/discovery/api_catalog.go:39-102 | A set of catalogs that is closed under catalog links holds everything reachable from any of its members |
| `ApiCatalog.TopologicalHasNoCycle` | pkg/discovery/api_catalog.go:40-46 | No catalog of a topological order lies on a cycle; this is what makes the absence of warnings meaningful |
| `ApiCatalog.Crawl.WarningIsSound` | pkg/discovery/api_catalog.go:40-46 | Meeting a catalog that is on the stack shows a directed cycle through it |
| `LinkReading.GraphIsRead` | pkg/discovery/api_catalog.go:75-99 | How documents become the graph: a link counts if it is in the linkset, or, where that is empty, among the links; it is an item link if `item` is a word of its relation, and a catalog link if `api-catalog` is and `item` is not; a catalog is broken if and only if it cannot be read or some link of it does not resolve |
| `OverlayPath.ParseJsonPath` | pkg/overlay/apply.go:82-147 | The index-driven loop stays within bounds, terminates, and returns the meaning of the expression as parsed token by token, or nothing exactly where that has no meaning |
| `OverlayPath.NextToken` | pkg/overlay/apply.go:88-143 | One turn of the parse loop reads the token that stands at the index, and moves past exactly its text |
| `OverlayPath.ParseInvertsPrint` | pkg/overlay/apply.go:82-157 | Parsing inverts printing for every list of tokens with quote-free names, indices in the range of a 64-bit int, identifier filter fields, and filter values without a quote or `)]`; any identifier may be written with a dot or in brackets |
| `OverlayPath.QuotedNameSurvivesIff` | pkg/overlay/apply.go:101-113 | A bracketed name comes back if and only if it holds no single quote |
| `OverlayPath.FilterParses` | pkg/overlay/apply.go:115-128 | A printed filter is found up to its first `)]` and gives back its field and value |
| `OverlayGrammar.ParseIff` | pkg/overlay/apply.go:82-157 | An expression is read as a list of tokens if and only if a grammar, given apart from the loop, spells that list so: names after dots or between quotes of either kind, indices as `strconv.Atoi` reads them, filters with any blanks around `==`. Hence what it does not spell is refused |
| `OverlayGrammar.ReadSpells` | pkg/overlay/apply.go:88-143 | Whatever token is read from the start of a text, what was read spells that token |
| `OverlayGrammar.SpelledReads` | pkg/overlay/apply.go:88-157 | Whatever spells a token is read as that token, before another token or at the end |
| `OverlayTree.SelectExact` | pkg/overlay/apply.go:159-259 | The paths that the token rounds produce are exactly those that match the token list step by step |
| `OverlayTree.SelectOrdered` | pkg/overlay/apply.go:159-259 | No path is found twice, and matches inside one array come in increasing order of index |
| `OverlayTree.MatchesAreDisjoint` | pkg/overlay/apply.go:249-259 | Any two matches of one path are disjoint subtrees |
| `OverlayTree.PutGetOther` | pkg/overlay/apply.go:50-52 | Rewriting one place of a tree leaves every place that is neither above nor below it |
| `OverlayTree.PutGet` | pkg/overlay/apply.go:50-52 | What is put at a place is found there, and a second put replaces the first |
| `OverlayHeap.Frame` | pkg/overlay/apply.go:28-32 | A value read as a tree depends only on the cells that make it up |
| `OverlayHeap.EditNode` | pkg/overlay/apply.go:50-52 | Rewriting one node of a tree at one step gives the tree with that node replaced, and what it is now made of |
| `OverlayHeap.LocateStable` | pkg/overlay/apply.go:165-180 | A rewrite leaves the containers that closures captured where they were, unless they lie under the rewritten step |
| `OverlayHeap.NodeStable` | pkg/overlay/apply.go:170-180 | Matches that do not lie under a rewritten step stay valid references with the same captured containers |
| `OverlayRemove.SetSlotWritesKid` | pkg/overlay/apply.go:197-202 | The chain of `set` closures, which stores every array again in what holds it, writes one kid of one container and nothing else |
| `OverlayRemove.DropIsEdit` | pkg/overlay/apply.go:203-208 | The `remove` closure of an element, which works on the array it captured, puts that array without the element in its place |
| `OverlayRemove.DropKeepsPending` | pkg/overlay/apply.go:236-242 | After one `remove`, every closure still to be called finds its captured array readable, unshared with the tree, and the way to its place intact, even if the array has been replaced |
| `OverlayRemove.DeleteKeepsPending` | pkg/overlay/apply.go:177-179 | Deleting a field leaves the closures of the other matches valid |
| `OverlayRemove.DisjointSubtrees` | pkg/overlay/apply.go:249-259 | Subtrees at unrelated places share no cell |
| `OverlayRemove.NoSharedReference` | pkg/overlay/apply.go:50-52 | No map or slice stands at two places of a tree, so an update that assigns one to several matches leaves something that is not a tree |
| `OverlayRemove.ClosureDiffer` | pkg/overlay/apply.go:197-208 | The same `remove` closure called in two heaps that differ in one field: afterwards they agree if the closure stores arrays up to that field, and differ there as before if it does not |
| `OverlayRemove.StoresUpToIff` | pkg/overlay/apply.go:197-208 | A `remove` closure stores up to a field above its match if and only if there are only array steps between the two |
| `OverlayUpdate.MatchUpdated` | pkg/overlay/apply.go:50-52 | The assignments of an update to one match, in any order of the map, give the tree with the old fields overridden by the update, and leave every match that is not below this one where it was |
| `OverlayUpdate.WrittenReads` | pkg/overlay/apply.go:44-54 | Whatever an update assigns, and to however many matches, shared or not: the copy reads as the pure update of the tree |
| `OverlayUpdate.WrittenHolds` | pkg/overlay/apply.go:44-54 | Where no object or array goes to several matches, the copy is a tree again after any number of matches, with all matches where they were |
| `OverlayUpdate.SharedUpdateShowsTwice` | pkg/overlay/apply.go:50-52 | One object assigned to two matches: the copy reads as it should, and a later assignment below one of the matches shows at the other one too |
| `OverlayApply.Engine.Apply` | pkg/overlay/apply.go:28-80 | The in-place rewrite on a copy returns a value that reads exactly as what the actions do to the document (`OverlayMeaning.DoesAll`), error for error, for every document in which an action that assigns an object or array to several matches, if there is one, comes last and only updates; if there is none, the value is a tree. No cell that existed before changes, except those of the update values of the overlay document, so the base is never changed, whether the call succeeds or fails |
| `OverlayApply.Engine.ApplyAll` | pkg/overlay/apply.go:34-77 | The action loop keeps the working copy a tree, equal to the rewrite so far, whose meaning `OverlayMeaning.DocumentDoes` gives, and disjoint from the update values of later actions; only the last action may leave shared values, and then the copy still reads as it should |
| `OverlayApply.Engine.ApplyAction` | pkg/overlay/apply.go:35-76 | One action, with its three phases over one list of captured matches, leaves the tree that the action makes of the document (`OverlayMeaning.Does`), or fails as it says, also when the copy replaces what holds matches that are then removed |
| `OverlayApply.Engine.Read` | pkg/overlay/apply.go:307-317 | Reading a Go value gives the JSON it denotes |
| `OverlayApply.Engine.Build` | pkg/overlay/apply.go:307-317 | Decoding JSON builds a tree of new cells and changes nothing else |
| `OverlayApply.Engine.FindMatches` | pkg/overlay/apply.go:249-259 | The nodes found are the values at the selected paths, with the containers their closures captured |
| `OverlayApply.Engine.UpdateAll` | pkg/overlay/apply.go:44-54 | For every update and every list of matches the loop fails exactly when the pure update does, and leaves a copy that reads as the pure update; unless an object or array went to several matches, it is a tree and the matches are where they were |
| `OverlayApply.Engine.UpdateMatch` | pkg/overlay/apply.go:50-52 | The assignments to one match, in any order of the map, override the entries of that object and change nothing else |
| `OverlayApply.Engine.CopyTo` | pkg/overlay/apply.go:261-293 | Walking to the destination, creating missing objects, and storing a deep copy gives the tree of the pure copy, and fails exactly when it does |
| `OverlayApply.Engine.SetSlot` | pkg/overlay/apply.go:197-202 | A `set` closure has the effect of storing through its whole chain of captured containers |
| `OverlayApply.Engine.RemoveMatch` | pkg/overlay/apply.go:203-208 | A `remove` closure does what it means as a function of the heap: it deletes a field, or stores a shortened copy of the array it captured |
| `OverlayApply.Engine.RemoveAll` | pkg/overlay/apply.go:69-76 | The remove loop, last match first, gives the tree of the pure removal; followed in a heap that lacks a copy just made over the containers, it ends in the same heap, or in one that still has the copy, according to whether an array was stored up to there |
| `OverlayApply.ReplacedRemoved` | pkg/overlay/apply.go:56-76 | After a copy over the containers of matches, the remove loop leaves a tree: the pure removal from the tree before the copy, with the copy on top unless some removal stored the old arrays over it |
| `OverlayEffects.UpdateEffect` | pkg/overlay/apply.go:44-54 | An update succeeds if and only if every match is an object; then every match gains the fields, and every place neither above nor below a match keeps its subtree |
| `OverlayEffects.RemoveAtMatch` | pkg/overlay/apply.go:69-76 | A container of matches ends up without the lowest-index match and nothing else missing; that purges it if and only if it held one match |
| `OverlayEffects.RemoveDeletesAllIff` | pkg/overlay/apply.go:69-76 | A removal deletes every match if and only if no container holds two of them |
| `OverlayEffects.RemoveKeepsElsewhere` | pkg/overlay/apply.go:69-76 | A removal keeps every place that no container of a match is above or below |
| `OverlayEffects.RemoveLeavesAMatch` | pkg/overlay/apply.go:226-242 | Two matching items of one array: a removal leaves one of them |
| `OverlayEffects.CopyEffect` | pkg/overlay/apply.go:56-67 | A successful copy puts the source at the destination if and only if the source does not lie on the way there or nothing has to be created on that way; and it keeps every place unrelated to the destination |
| `OverlayEffects.CopyIntoItself` | pkg/overlay/apply.go:284-290 | An object copied below itself, where something has to be created: the created objects are copied too |
| `OverlayEffects.RemoveAfterCopy` | pkg/overlay/apply.go:56-76 | Removing matches after a copy over the container of one of them: if some match is reached from the destination through arrays alone, all is as if there had been no copy; otherwise the destination holds what was copied, and every place unrelated to it is as if there had been no copy |
| `OverlayEffects.RemovedFromReplacedObject` | pkg/overlay/apply.go:56-76 | Copying `$.a.b` to `$.a` and removing it: the field is deleted from an object that is in the tree no more, so `b` is still there |
| `OverlayEffects.ReplacedArrayComesBack` | pkg/overlay/apply.go:197-208 | Copying `$.list[0]` to `$.list` and removing it: the shortened array is stored over the copy |
| `OverlayMeaning.ActionDoes` | pkg/overlay/apply.go:35-76 | What one action does, said by parsed paths, matches and places alone: it fails on a path that does not parse, on an update of a match that is not an object, on a copy without a match or to a destination that cannot be reached, and on a removal of the root. Otherwise every match has gained the update; then the destination holds what stands at the first match in document order; then every container has lost its first match, or, where the copy has covered containers, what was covered has, and it is back in place of the copy if and only if arrays alone lead down to some match. Every other place is as it was |
| `OverlayMeaning.ActionOnce` | pkg/overlay/apply.go:35-76 | An action has only one such result, so that this says all about it |
| `OverlayMeaning.DocumentDoes` | pkg/overlay/apply.go:28-80 | A list of actions has exactly the result that its actions have one after the other; the first that fails decides |
| `OverlayMeaning.SelectInDocumentOrder` | pkg/overlay/apply.go:249-259 | The matches of a path are listed in document order: of two, the one with the smaller index where they part comes first |
| `OverlayMeaning.CopyPlaces` | pkg/overlay/apply.go:56-67 | A copy fails if and only if a token of the destination is not a name, or something on the way there is not an object; otherwise the destination holds what is at the source, with the objects created below it on the way |
| `OverlayMeaning.RemovalRemoves` | pkg/overlay/apply.go:69-76 | A removal, after a copy or without one: which containers lose what, and what becomes of the copy |
| `HttpCache.Fetcher.Fetch` | pkg/cache/http.go:40-198 | One fetch over the two-file store returns the result, asks the network and leaves the store as `CacheLifetime` says of each kind of reply |
| `HttpCache.FileStore.Load` | pkg/cache/store.go:37-65 | Loading finds the completed pair, or nothing, or a corrupt one, which it deletes |
| `HttpCache.FileStore.Save` | pkg/cache/store.go:67-83 | A completed save makes its pair the one that is found, and touches no other key |
| `HttpCache.RunIsFaithful` | pkg/cache/http.go:75-198 | Over every run from an empty store with a non-decreasing clock, against an origin that answers 304 only to a validator of its current representation: misses, refreshed and revalidated results are the origin's current body; a fresh hit is the body the origin had when it was last validated, less than the applied lifetime ago; a stale hit is the body it had then |
| `HttpCache.RunKeepsStoreTrue` | pkg/cache/http.go:120-170 | In every state of such a run each stored pair is what the origin held when it was last validated, under validators that name that body, with an expiry explained by the response or caller that validated it |
| `CacheLifetime.ReplyIsKept` | pkg/cache/http.go:144-181 | A readable 2xx reply is the result, and is what the store then finds, under the validators of that reply, and with the expiry that its Cache-Control or the fallback of the caller gives |
| `CacheLifetime.NotModifiedIsKept` | pkg/cache/http.go:120-142 | A 304 on a stored pair gives its body again and keeps it, with the validators and headers of the reply where it has them, and a new expiry |
| `CacheLifetime.FailureAnswers` | pkg/cache/http.go:101-198 | A failed exchange gives the stored pair as a stale hit if and only if there is one, the caller accepts it, and it was not the body that failed; else the error says what failed; the pair stays in the store |
| `CacheLifetime.StoreAnswers` | pkg/cache/http.go:75-101 | When nothing is asked, the answer is the stored pair, fresh exactly while it has not expired, and nothing is saved |
| `CacheLifetime.FreshIffWithin` | pkg/cache/http.go:75-101 | Over every run: after a fetch that has brought a pair from the origin, and with no other for this key in between, a fetch that does not force a refresh is a fresh hit with that body, and asks nothing, exactly while the lifetime that was given lasts |
| `CacheLifetime.FreshForSeconds` | pkg/cache/http.go:285-321 | Where the first max-age that was kept says n seconds, that is exactly while less than n seconds have passed |
| `CacheLifetime.FreshForFallback` | pkg/cache/http.go:285-307 | Where nothing is said, it is exactly while less than the positive fallback of the caller has passed |
| `HttpCache.SavesCurrent` | pkg/cache/http.go:120-170 | Whatever a fetch saves is what the origin holds now |
| `HttpCache.FailureKeepsPair` | pkg/cache/http.go:102-116 | A failed fetch leaves a stored pair as it is, and no fetch touches another key |
| `HttpCache.AskedIff` | pkg/cache/http.go:75-101 | The network is asked exactly when there is no pair, or a refresh is forced, or the pair is stale and the caller is not manual-only |
| `HttpCache.MaxAgeIsSecondsIff` | pkg/cache/http.go:308-321 | The first directive of any list that says max-age, in any case and with any blanks, counts as its number of seconds if and only if that is at most 9223372036; beyond, the 64-bit duration wraps around, or the number is not read at all |
| `HttpCache.ParseMaxAge` | pkg/cache/http.go:308-321 | The first max-age directive, in any case and with spaces around it, decides; if it is malformed there is no lifetime |
| `TransportToken.InvStep` | pkg/mcp/client/auth.go:88-181 | Every atomic step of every caller keeps the protocol invariant: locks and holders agree, each cached token fits the conversation so far, and an open request is attended by the holder of its lock |
| `TransportToken.RunKeepsInv` | pkg/mcp/client/auth.go:88-181 | Every state of every interleaving satisfies that invariant |
| `TransportToken.RequestsOfASlot` | pkg/mcp/client/auth.go:88-181 | Under every interleaving the requests for one cache entry are failed grants, then at most one successful grant, then at most one refresh, which sends the refresh token of that grant |
| `TransportToken.StagedIffAllowed` | pkg/mcp/client/auth.go:132-177 | The stages of a conversation describe exactly those sequences of requests and replies |
| `TransportToken.WireOnlyGrows` | pkg/mcp/client/auth.go:88-181 | What has been requested stays requested: the conversation is only ever extended |
| `TransportToken.HandedIsLatest` | pkg/mcp/client/auth.go:195-207 | A token that a caller is handed is the one issued last for the entry it consulted, and, if it came from the cache, at least five seconds from its expiry |
| `TokenLifetime.ReadIff` | pkg/mcp/client/auth.go:195-207 | A look at the cache hands out a token if and only if the replies of the endpoint have left one with five seconds of its lifetime to go, or without an end; it is the one issued last |
| `TokenLifetime.HandedInTime` | pkg/mcp/client/auth.go:195-228 | Over every run: a token handed out from the cache was brought by an earlier reply, the last one about its entry; if that gave it n seconds, at least five of them are left |
| `TokenLifetime.InTimeIsHanded` | pkg/mcp/client/auth.go:195-207 | And as long as five seconds are left, every caller that reads it is handed it |
| `TokenLifetime.PastMarginIsRefreshed` | pkg/mcp/client/auth.go:230-263 | A granted token past that margin, with a refresh token that is untried and has not run out itself, leads to the request that sends this refresh token |
| `TokenLifetime.DecideIff` | pkg/mcp/client/auth.go:230-280 | The decision under the lock, by the replies so far: a grant is asked for if and only if there was none, a refresh if and only if the token has run out and its refresh token can still be used; else the caller fails |
| `TransportToken.DeadStep` | pkg/mcp/client/auth.go:230-317 | After a failed refresh no step changes the entry or makes a request for it, and a caller that consults it gets no token: the decision under the lock is an error |
| `TransportToken.FailedRefreshIsFinal` | pkg/mcp/client/auth.go:310-317 | That state is kept through the rest of every run |
| `TransportToken.DecideFollowsStage` | pkg/mcp/client/auth.go:230-245 | Under the lock, a grant is asked for only if nothing was ever granted, and a refresh only for a granted token whose refresh is untried |
| `TransportToken.Transport.ReadHint` | pkg/mcp/client/auth.go:94-106 | The first look at the cache, under the lock of the unresolved key, is that step of the protocol |
| `TransportToken.Transport.ReadLocked` | pkg/mcp/client/auth.go:119-129 | The second look, under the lock of the resolved key, is that step of the protocol |
| `TransportToken.Transport.Decide` | pkg/mcp/client/auth.go:230-280 | The checks before a refresh or a grant, in the order of the code, are that step of the protocol |
| `TransportToken.Transport.GrantReply` | pkg/mcp/client/auth.go:150-180 | Storing and returning a granted token is that step of the protocol; how long it is then handed out is `TokenLifetime.HandedInTime` and `InTimeIsHanded` |
| `TransportToken.Transport.RefreshReply` | pkg/mcp/client/auth.go:264-307 | Storing a refreshed token with its lifetime, or marking the entry failed, is that step of the protocol |
| `TransportToken.Transport.Acquire` | pkg/mcp/client/auth.go:427-437 | Taking the lock of a key is that step of the protocol |
| `SessionLease.InvStep` | internal/runtime/server.go:1396-1454 | Every step keeps the invariant: every lease has its own timer, armed or fired and unprocessed; no timer fires before the expiry it stands for; drains match the sections that emptied the map; the in-flight counter counts the business requests |
| `SessionLease.RunKeepsInv` | internal/runtime/server.go:1396-1454 | Every state of every run of heartbeats, closes, timer firings, requests and drains satisfies that invariant |
| `SessionLease.ExpiryIsDue` | internal/runtime/server.go:1414-1428 | A lease disappears only by closing its session, by closing the server, or by a timer at or after the expiry recorded for it at that moment, even if superseded timers could not be stopped |
| `SessionLease.OwnTimerDelivers` | internal/runtime/server.go:1396-1428 | No lease is forgotten: its own timer can fire once due, and once fired, processing it deletes the lease |
| `LeaseTiming.LeaseEndsInTime` | internal/runtime/server.go:1368-1428 | In every state of every run: each lease records the time at which its last renewal began plus heartbeat times missed limit; its timer was armed by that renewal and can fire exactly from the time of arming plus that product on; once it has fired, its callback can run and deletes the lease |
| `LeaseTiming.TimerHistory` | internal/runtime/server.go:1401-1411 | Every timer ever armed was armed by a renewal of its session, and is due that product after it |
| `LeaseTiming.RenewalGivesLease` | internal/runtime/server.go:1401-1411 | A renewal gives its session a lease with a new armed timer, disarms the one before, and touches no other lease |
| `LeaseTiming.LeasesAfter` | internal/runtime/server.go:1414-1442 | No other step gives a lease, and leases go only by closing, or by a timer that stands for the expiry they record |
| `SessionLease.LogRecords` | internal/runtime/server.go:1414-1442 | The log records exactly the expiry and close sections that deleted a lease, and how many leases were left |
| `SessionLease.DrainsAreEmptyings` | internal/runtime/server.go:1425-1441 | Where the owner's exit ends the server and there is a hook, the drains are, in order and one for one, the sections that deleted the last lease; otherwise there is none |
| `SessionLease.HookIsEarned` | internal/runtime/server.go:1447-1454 | A drain calls the hook only after it has itself read the counter as zero, with no business request running, or after the grace period since it began had passed |
| `SessionLease.HookOncePerDrain` | internal/runtime/server.go:1447-1454 | A drain calls the hook at most once |
| `LeaseTiming.DrainBeginsIff` | internal/runtime/server.go:1425-1441 | A step begins a drain if and only if it is an expiry or a close that deletes the last lease, and the exit of the owner ends the server, and there is a hook |
| `LeaseTiming.DrainComesToItsEnd` | internal/runtime/server.go:1447-1454 | A drain calls the hook as soon as it reads that only management requests are running, and at any rate at its first look at the clock after the grace period |
| `SessionLease.InflightStep` | internal/runtime/server.go:228-238 | The counter equals the number of running requests outside the runtime management paths |
| `SessionLease.Server.CommitRenew` | internal/runtime/server.go:1401-1411 | Renewing under the lock stops the previous timer, if still possible, and arms a new one |
| `SessionLease.Server.Expire` | internal/runtime/server.go:1414-1428 | The expiry callback is that step, and begins a drain exactly when it deleted the last lease in that mode |
| `SessionLease.Server.Remove` | internal/runtime/server.go:1430-1442 | Closing a session is that step |
| `SessionLease.Server.CloseAll` | internal/runtime/server.go:1277-1285 | Closing the server stops the timer of every lease, in any order of the map, and empties the map |
| `SessionLease.Server.ReadInflight` | internal/runtime/server.go:1449-1451 | Reading the counter in the loop condition is that step |
| `SessionLease.Server.CheckDeadline` | internal/runtime/server.go:1449-1451 | Comparing the clock with the deadline is that step |
| `LeaseTracker.ShutdownHappensOnce` | internal/runtime/lease.go:142-149 | Under any interleaving of closes and expiry the channel is closed at most once and the hook runs at most once, and when any call of the shutdown has returned, both have happened |
| `LeaseTracker.InvStep` | internal/runtime/lease.go:101-149 | Every step keeps the state of the once-guard in agreement with what has been closed and called |
| `LeaseTracker.ExpiryIsEarned` | internal/runtime/lease.go:101-140 | The monitor shuts down only after it found the last heartbeat older than the limit, and then either read that nothing was in flight or waited for the whole grace period |
| `LeaseTracker.StaleIff` | internal/runtime/lease.go:121-127 | On a tick the monitor gives up the lease if and only if the tick is later than the last heartbeat by more than the interval times the limit, defaults filled in |
| `LeaseTracker.ExpiredMonitorEnds` | internal/runtime/lease.go:129-140 | An expired monitor calls for shutdown when it reads that nothing is in flight, and at the latest at its first look at the clock after the grace period |
| `LeaseTracker.Tracker.Enter` | internal/runtime/lease.go:142-149 | The once-guard lets one caller in and turns the others away after it is over |
| `LeaseTracker.Tracker.CloseChannel` | internal/runtime/lease.go:142-149 | The channel is closed only when it is open |
| `LeaseTracker.Tracker.CallHook` | internal/runtime/lease.go:142-149 | The hook is called only when it has not been |
| `LeaseTracker.Tracker.Judge` | internal/runtime/lease.go:121-127 | The staleness check is that step, with the defaults filled in |
| `LeaseTracker.Tracker.FirstRead` | internal/runtime/lease.go:129-133 | The first reading of the counter after expiry is that step |
| `Authorization.AuthorizedTools` | internal/runtime/server.go:954-1006 | The loop over the scopes gives the closed form of the set of scopes: named tools narrowed by bundles and profiles if both are given, else whichever is given, less the denied ones; order and repetition of scopes play no part |
| `AuthorizationRules.EnvelopeIff` | internal/runtime/server.go:954-1031 | A caller has a tool if and only if the tool is in the catalog, is not denied, is named if any tool is, and lies in a bundle or in what a profile lets through, unless tools are named and no scope speaks of bundles or profiles |
| `AuthorizationRules.MoreScopesLoseIff` | internal/runtime/server.go:981-999 | More scopes can take a tool away: exactly one that is not named where some tool is, or that lies in no bundle or profile where some scope speaks of these |
| `AuthorizationRules.BundleTakesAway` | internal/runtime/server.go:981-999 | A caller of one named tool that gets an unknown bundle as well is left with nothing |
| `Authorization.AuthorizedProfileTools` | internal/runtime/server.go:1008-1031 | The tools of a profile: those its tool set lets through in curated mode, else all |
| `Authorization.Config.ToolAllowed` | pkg/policy/policy.go:67-80 | A tool is let through if and only if the allow list, if any, matches it and no denial does, except a catch-all denial beside an allow list |
| `Authorization.Config.MatchesAny` | pkg/policy/policy.go:82-89 | True if and only if some pattern matches |
| `Authorization.FindTool` | pkg/catalog/types.go:188-195 | The first tool with the ID, nothing if and only if there is none |
| `Authorization.FilterCatalog` | internal/runtime/server.go:1033-1073 | The loops keep, in order, exactly the allowed tools, the services of those, the workflows all of whose steps are allowed, and every view narrowed to them |
| `Authorization.FilteringComposes` | internal/runtime/server.go:1033-1073 | Filtering by one set and then by another is filtering once by their intersection, in tools, services, workflows and views, order included |
| `Authorization.ExecuteTool` | internal/runtime/server.go:314-346 | The execute gate passes authorization if and only if the tool is in the filtered catalog, and runs it if and only if policy allows it as well |
| `Authorization.SeenIsAdmitted` | internal/runtime/server.go:324-330 | The IDs in the filtered catalog are exactly the envelope of the scopes, hence what the gate admits, and none of these tools is denied by the managed policy |
| `Authorization.RunWorkflow` | internal/runtime/server.go:449-490 | The run handler is decided by the first workflow with the ID and by its first failing step |
| `Authorization.SeenWorkflowPassesIff` | internal/runtime/server.go:449-479 | For the ID of a workflow that the caller sees, the lookup and authorization checks pass at every step if and only if the first workflow with this ID is one that the caller sees; and the handler runs it if and only if, besides, policy allows the tool of every step |
| `Authorization.DuplicateWorkflowIsRefused` | internal/runtime/server.go:449-468 | Two workflows with one ID: the caller sees the second, and the handler refuses it because of the first |
| `Authorization.DecideTool` | pkg/policy/policy.go:21-36 | The policy decision: managed denial, then the curated tool set, then missing approval, then allowed |
| `AuthorizationRules.DecideIff` | pkg/policy/policy.go:21-65 | When policy decides what, by the entries of the configuration: a managed denial comes before curation, by the own profile of the request or the default one, and curation before a missing approval |
| `AuthorizationRules.ObstacleIs` | internal/runtime/server.go:449-479 | A workflow is refused as its first step that does not succeed says: its tool is unknown, not allowed, or denied by policy; it passes if and only if every step succeeds |
| `AuthorizationRules.FirstIs` | pkg/catalog/types.go:188-195 | A lookup means the first tool with the ID |
| `ConfigLists.LoadEffective` | pkg/config/load.go:155-175 | After the four scopes every list is the duplicate-free union, in scope order, of what the scopes list; the managed denials are exactly those of the managed scope and a prefix of all denials |
| `ConfigLists.ListedSomewhereIff` | pkg/config/load.go:429-470 | Something is denied, needs approval, or is allowed or denied by a tool set, if and only if some file lists it there; the empty string never counts |
| `ConfigLists.Config.Merge` | pkg/config/load.go:429-470 | Merging a scope appends what is new to every list, so that all earlier lists stay prefixes: no later scope drops or reorders an entry |
| `ConfigLists.UniqueStrings` | pkg/config/load.go:535-561 | The two loops give the first occurrences of the non-empty strings of both lists |
| `ConfigLists.UniqueIsFirstOccurrences` | pkg/config/load.go:535-561 | The result lists nothing twice, in the order of the first occurrences |
| `ConfigLists.UniqueAbsorbs` | pkg/config/load.go:460-464 | Removing duplicates scope by scope is removing them once from the concatenation |
| `ConfigLists.UniqueExtends` | pkg/config/load.go:535-561 | The list before a merge is a prefix of the list after it |
| `ConfigLists.ManagedDenialsLead` | pkg/config/load.go:460-464 | With the managed scope first, its denials head the list of all denials |
| `ConfigLists.Config.MergeToolSets` | pkg/config/load.go:429-439 | The tool sets of one file are merged key by key, in any order of the map |
| `SourceMerge.MergeKeepsCleanIff` | pkg/config/load.go:374-407 | One file keeps a source free of fields of another kind if and only if it sets only fields that belong to the kinds of source and transport in force after it |
| `SourceMerge.FittingFilesMergeClean` | pkg/config/load.go:374-407 | Through any number of changes of kind, files that fit leave no field of another kind behind |
| `SourceMerge.MergeKeepsOAuthCleanIff` | pkg/config/mcp.go:256-306 | The same for the fields that client-credentials OAuth does not have, through changes of mode |
| `SourceMerge.Validate` | pkg/config/mcp.go:353-490 | The validator complains about a field of another kind of source or transport if and only if the source has one |
| `SourceMerge.ValidateOAuth` | pkg/config/mcp.go:522-584 | It complains about a field that the mode does not have if and only if there is one |
| `SourceMerge.Config.MergeSources` | pkg/config/load.go:374-407 | Every source of a file is merged with what was there, in any order of the map, and no other source changes; what the fields then hold is `SourceFields.FieldsAreFromFiles` |
| `SourceMerge.Config.MergeFiles` | pkg/config/load.go:155-175 | After the files of all scopes, each source is the merge of what the files say about it, in their order, and there are no others |
| `SourceMerge.Config.MergeSource` | pkg/config/load.go:375-406 | One turn of that loop, on structures held by reference, changes the value of this source alone to the merged one |
| `SourceMerge.MergeTransport` | pkg/config/mcp.go:219-254 | The transport structure, changed in place or made, holds the merge of its old value with what the file says |
| `SourceMerge.MergeOAuth` | pkg/config/mcp.go:256-306 | The same for the OAuth structure |
| `SourceFields.FieldsAreFromFiles` | pkg/config/mcp.go:219-306 | For every field of a source, its transport and its OAuth settings: after any files, it has the value of the last file that gives it, unless a later change of kind or mode has reset it, or no file gives it; then it has its default |
| `SourceFields.OneContent` | pkg/config/load.go:374-407 | The files determine that value: there is only one |
| `SourceFields.FieldStep` | pkg/config/load.go:374-407 | One file replaces the value of a field, resets it or keeps it, according to what it gives and to the kinds and modes before and after |
| `SourceMerge.EnabledKeptIff` | pkg/config/load.go:376-394 | A file that does not mention `enabled` keeps its value if and only if the source so far is not the zero source |
| `SourceMerge.LoneDisableIsForgotten` | pkg/config/load.go:376-394 | A source that the first file only disables comes back enabled |
| `McpOpenApi.BuildDocumentResult` | pkg/mcp/openapi/adapter.go:37-99 | The two passes name the enabled tools first and the disabled ones after them, and put the enabled operations into the document; when that fails is `OperationNames.BuildFailsIff` |
| `McpOpenApi.DisabledToolsDoNotMatterIff` | pkg/mcp/openapi/adapter.go:37-99 | The document and the filtered operations are those of a build from the enabled tools alone, if and only if no disabled tool lacks a name |
| `McpOpenApi.FilteredIsEnabledPart` | pkg/mcp/openapi/adapter.go:52-87 | The filtered operations are exactly the operations of the enabled tools among all operations, in order |
| `McpOpenApi.SlugifyIsIdempotent` | pkg/mcp/openapi/adapter.go:184-209 | Slugs are exactly the fixed points of `slugify`, and applying it twice changes nothing |
| `McpOpenApi.SlugIsSlug` | pkg/mcp/openapi/adapter.go:184-221 | A slug has only lower-case letters, digits and single dashes, and neither begins nor ends with a dash |
| `McpOpenApi.Slugify` | pkg/mcp/openapi/adapter.go:184-221 | The loop with its flag, and the trimming loops, compute the slug |
| `SlugLaws.SeparatorParts` | pkg/mcp/openapi/adapter.go:202-206 | A separator begins a new word: the slug of two texts around one is their slugs with a dash between, unless one is empty |
| `SlugLaws.CapitalParts` | pkg/mcp/openapi/adapter.go:192-197 | A capital begins a new word with its lower-case letter |
| `SlugLaws.OtherVanishes` | pkg/mcp/openapi/adapter.go:190-207 | Any character that is no letter, digit or separator leaves no trace |
| `SlugLaws.OnlySlugObeys` | pkg/mcp/openapi/adapter.go:184-221 | `slugify` is the only function that obeys these laws and keeps texts of lower-case letters and digits |
| `McpOpenApi.Names.UniqueValue` | pkg/mcp/openapi/adapter.go:173-182 | A base not yet in use is given out as it is, else with the suffix of the tool name, and is in use afterwards; the value was not in use before if and only if the base or its suffixed form was not |
| `McpOpenApi.NamesKeptIff` | pkg/mcp/openapi/adapter.go:62-62 | Every enabled operation is called like its tool if and only if no two enabled tools share a name |
| `McpOpenApi.ThreeOfAName` | pkg/mcp/openapi/adapter.go:173-182 | Three tools of one name: two of them get the same operation ID |
| `OperationNames.NamesDistinctIff` | pkg/mcp/openapi/adapter.go:52-82 | The operation IDs are pairwise different if and only if no tool meets both its name and its suffixed name in use; the paths, if and only if no tool meets both its slug and its suffixed slug in use |
| `OperationNames.IdsDistinctIffNoThree` | pkg/mcp/openapi/adapter.go:173-182 | Suffixes having eight characters, and where no tool is named like the suffixed name of another, the operation IDs are pairwise different if and only if no name occurs three times |
| `OperationNames.PathsDistinctIffNoThree` | pkg/mcp/openapi/adapter.go:173-182 | Suffixes having eight characters, and where no slug is like a suffixed slug and different names have different suffixes, the paths are pairwise different if and only if no two tools of one name come after a tool of their slug |
| `OperationNames.DocumentHoldsAllIff` | pkg/mcp/openapi/adapter.go:113-142 | Every enabled operation has an entry of its own in the document if and only if the paths are pairwise different; otherwise the last operation of a path has overwritten the others |
| `OperationLaws.AllNamedInTurn` | pkg/mcp/openapi/adapter.go:52-82 | Every tool gets its name as operation ID and its slug as path, with the suffix if and only if a tool named before it has that already; the enabled tools are named before the disabled ones, and otherwise in order |
| `OperationLaws.BuildGives` | pkg/mcp/openapi/adapter.go:37-143 | A build that succeeds gives all operations so named, those of the enabled tools among them in order, and a document with exactly their paths, where the last operation of a path counts, with the schema of the last tool of its name |
| `OperationNames.BuildFailsIff` | pkg/mcp/openapi/adapter.go:52-57 | A build fails if and only if some tool lacks a name, or the last tool of the name of an enabled tool has a malformed schema; a missing name is what it reports, else the first such tool |
| `McpOpenApi.BuildDocument` | pkg/mcp/openapi/adapter.go:101-143 | Each reference puts the operation of the last tool with its name under its path, and the first malformed schema fails the build |
| `LinkHeader.ParseLinkHeader` | pkg/discovery/service.go:67-78 | The loops over values and segments collect the parsed links in order |
| `LinkHeader.SplitLinkHeader` | pkg/discovery/service.go:80-108 | The scanner cuts a value at the commas outside quotes and angle brackets, and trims the pieces |
| `LinkHeader.ParseInvertsPrint` | pkg/discovery/service.go:67-128 | Parsing inverts printing of any lists of links, with any white space around the commas, for non-empty URLs without a quote or `>` and non-empty relations without white space, a quote or `;` |
| `LinkHeader.PrintIsSolid` | pkg/discovery/service.go:80-108 | No comma inside the URL or the quoted relations of a printed link ends it |
| `LinkHeader.LinkOfPrint` | pkg/discovery/service.go:110-128 | A printed link is read back with its URL and all its relations in order |
| `LinkGrammar.SegmentsAre` | pkg/discovery/service.go:80-108 | Any value is cut at exactly those commas before which there is an even number of quotes and no unquoted angle bracket is left open; the stretches between them are the segments, trimmed |
| `LinkGrammar.LinkIff` | pkg/discovery/service.go:110-128 | Any segment is read as a link if and only if it is a non-empty URL in angle brackets and parameters after it, of which the last that gives relations decides; they are its words, less the quotes around them |
| `LinkGrammar.HeaderJoins` | pkg/discovery/service.go:67-78 | The links of a header are those of its values in order, and of a value those of its segments in order |
| `TextLaws.FieldsIff` | pkg/discovery/service.go:125-125 | `strings.Fields` gives a list of words if and only if the text is these words in order with white space between them |
| `LinkHeader.ParseLinkSegment` | pkg/discovery/service.go:110-128 | A segment is a link if and only if it begins with a non-empty URL in angle brackets; its last `rel` gives the relations |
| `PathTemplate.BuildPath` | pkg/exec/exec.go:139-148 | The loop replaces one placeholder after the other, for as many parameters as have values |
| `PathTemplate.BuildPathSubstitutes` | pkg/exec/exec.go:139-148 | On a well-formed template the path is the simultaneous substitution of all supplied values; the first value of a name counts, and placeholders without a value stay |
| `PathTemplate.ReplaceIsPut` | pkg/exec/exec.go:145 | Replacing a placeholder in the text of a well-formed template fills exactly the holes of that name |
| `PathTemplate.EscapedHasNoBraces` | pkg/exec/exec.go:145 | Escaped values contain no braces, so that a value is never filled again |
| `PathTemplate.UnescapeInvertsEscape` | pkg/exec/exec.go:145 | Escaping can be undone for every value, so that no two values fill a path alike; and a value stays as it is if and only if it needs no escaping |
| `AuthPlan.Session.ResolveAuthPlan` | internal/runtime/auth_resolution.go:26-48 | For the alternatives of a tool, or its requirements as the only one where it has none: returns the plan of the first alternative that resolves without interaction, and then has started no interactive flow; else that of the first one that resolves with it; fails if and only if there are alternatives and none resolves either way |
| `AuthPlan.Session.TryAlternative` | internal/runtime/auth_resolution.go:50-82 | An alternative gives a plan if and only if all its requirements resolve and none gives a target another value; the plan is then exactly the union of their targets |
| `AuthPlan.JoinErrors` | internal/runtime/auth_resolution.go:122-141 | There is no error if and only if nothing was attempted; else the error names every failed attempt in order |
| `AuthPlan.OneMore` | internal/runtime/auth_resolution.go:64-79 | A requirement whose target is free, or has the same value already, extends the union |
| `AuthPlan.Conflict` | internal/runtime/auth_resolution.go:66-76 | A target that already has another value makes the alternative unresolvable |

## Left out

- OverlayApply.Engine.Apply: does not say what actions do that follow an update which has assigned one map or slice to several matches, because the copy is then no tree (`OverlayRemove.NoSharedReference`) and they may change several places at once (`OverlayUpdate.SharedUpdateShowsTwice`), nor what an action does that makes such an assignment and copies or removes as well; what an action does to the update values of the overlay document itself is not tracked either.
- OverlayApply.Engine.UpdateAll: where an object or array goes to several matches, says what the result reads as, and not that it is a tree.
- OverlayApply.Engine.Read: models the JSON round trip of a copy as exact on null, booleans, numbers and text; marshalling errors and the rounding of numbers are not modelled.
- OverlayTree.SelectExact: takes the printed form of a value, which filters compare, as a function of the value.
- OverlayPath.ParseJsonPath: works on characters where the code works on bytes; every character it looks for is ASCII.
- CacheLifetime.FreshIffWithin: leaves open how long a pair is fresh whose max-age is a number of seconds beyond the range of a 64-bit duration; which numbers these are is `HttpCache.MaxAgeIsSecondsIff`.
- HttpCache.Fetcher.Fetch: models completed saves; a crash or failure between the two writes of a save, other store errors, collisions of key digests, observers and the derivation of the key from the request are not modelled.
- TransportToken.InvStep: assumes that stores succeed and that nothing wipes the store, which closing a session does for the file store; reading a secret, resolving the endpoint, making a request and each exchange are allowed to fail at any point, and expiry beyond the range of a 64-bit duration is not modelled.
- SessionLease.InvStep: does not claim that only one session is attached at a time, because the attach check and the renewal take the lock separately.
- SessionLease.HookIsEarned: speaks of the hook calls of drains; a stop request (internal/runtime/server.go:723-738) calls the hook at once, without a drain, and is not a step of the model.
- SourceMerge.Validate: does not model the complaints about headers owned by OAuth or given twice.
- AuthPlan.Session.ResolveAuthPlan: takes the resolution of a requirement as a function of the requirement and of interactivity; secrets and OAuth flows behind it are not part of this model.
- Authorization.AuthorizedTools: takes glob matching as a function that may report a malformed pattern.
- McpOpenApi.BuildDocumentResult: takes the digest of a name and the conversion of an input schema as functions.
- PathTemplate.BuildPathSubstitutes: is stated for templates whose braces enclose names only, and for brace-free parameter names.
- Normalizing `mcpServers` into sources, the scalar settings of the configuration, services, profiles and secrets: field by field, without interaction.
- HTTP clients and servers, JSON and YAML decoding, JSON Schema validation, URL resolution, JWT and introspection checks, browser login, keychain access: results of these are inputs of the models.
- Retry counting in the executor, refresh of sources, audit events, process supervision, administration and front ends.
