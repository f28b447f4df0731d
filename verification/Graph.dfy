/** Impact traversal of the evidence graph (graph.py). */
module Graph {
  import opened Basics
  import opened Ordering

  datatype Node = Node(id: string, path: string, startLine: int, evidence: string)

  datatype Resolution = Exact | Heuristic | Unresolved

  datatype Edge = Edge(source: string, target: string, relation: string, resolution: Resolution, evidence: string)

  datatype Direction = Upstream | Downstream {
    function Near(e: Edge): string {
      if Upstream? then e.target else e.source
    }

    function Far(e: Edge): string {
      if Upstream? then e.source else e.target
    }
  }

  datatype Hit = Hit(node: Node, depth: nat, path: seq<Edge>)

  datatype Error = ConflictingIdentity | MissingEndpoint | InvalidDepth | UnknownSeed

  datatype Result<T> = Success(value: T) | Failure(error: Error)

  // ---------- What reachability means ----------

  /** The edges a query may follow, and which way. */
  datatype Query = Query(edges: set<Edge>, direction: Direction, heuristic: bool) {
    predicate Admits(e: Edge) {
      e in edges && (e.resolution.Exact? || heuristic)
    }

    /** `path` is a chain of admissible edges that leads from `from` to `to`. */
    ghost predicate Chain(from: string, path: seq<Edge>, to: string)
      decreases |path|
    {
      if path == [] then from == to
      else
        var last := path[|path| - 1];
        Admits(last) && direction.Far(last) == to && Chain(from, path[..|path| - 1], direction.Near(last))
    }

    ghost predicate Reaches(seeds: set<string>, to: string, length: nat) {
      exists from, path | from in seeds && |path| == length :: Chain(from, path, to)
    }

    /** The length of the shortest chain from a seed. */
    ghost predicate Distance(seeds: set<string>, to: string, d: nat) {
      Reaches(seeds, to, d) && forall k: nat | k < d :: !Reaches(seeds, to, k)
    }
  }

  /** The same in plain terms: edges of the graph, exact ones unless heuristic ones
      were asked for, that lead from a seed to `to` one after another. */
  ghost predicate Walk(edges: set<Edge>, direction: Direction, heuristic: bool, seeds: set<string>, path: seq<Edge>, to: string) {
    && path != []
    && (forall i | 0 <= i < |path| :: path[i] in edges && (heuristic || path[i].resolution == Exact))
    && match direction
       case Downstream =>
         && path[0].source in seeds && path[|path| - 1].target == to
         && forall i | 0 <= i < |path| - 1 :: path[i].target == path[i + 1].source
       case Upstream =>
         && path[0].target in seeds && path[|path| - 1].source == to
         && forall i | 0 <= i < |path| - 1 :: path[i].source == path[i + 1].target
  }

  lemma {:induction false} ChainIsWalk(q: Query, seeds: set<string>, from: string, path: seq<Edge>, to: string)
    requires q.Chain(from, path, to) && from in seeds && path != []
    ensures Walk(q.edges, q.direction, q.heuristic, seeds, path, to)
    decreases |path|
  {
    var rest := path[..|path| - 1];
    if rest != [] {
      ChainIsWalk(q, seeds, from, rest, q.direction.Near(path[|path| - 1]));
      assert forall i | 0 <= i < |rest| :: path[i] == rest[i];
    }
  }

  lemma {:induction false} WalkIsChain(q: Query, seeds: set<string>, path: seq<Edge>, to: string)
    requires Walk(q.edges, q.direction, q.heuristic, seeds, path, to)
    ensures q.Chain(q.direction.Near(path[0]), path, to) && q.direction.Near(path[0]) in seeds
    decreases |path|
  {
    var rest := path[..|path| - 1];
    if rest != [] {
      assert forall i | 0 <= i < |rest| :: path[i] == rest[i];
      WalkIsChain(q, seeds, rest, q.direction.Near(path[|path| - 1]));
    }
  }

  // ---------- The order of hits ----------

  predicate EdgeLe(a: Edge, b: Edge) {
    if a.source != b.source then StringLe(a.source, b.source)
    else if a.target != b.target then StringLe(a.target, b.target)
    else StringLe(a.relation, b.relation)
  }

  predicate HitLe(a: Hit, b: Hit) {
    if a.depth != b.depth then a.depth < b.depth
    else if a.node.path != b.node.path then StringLe(a.node.path, b.node.path)
    else if a.node.startLine != b.node.startLine then a.node.startLine < b.node.startLine
    else StringLe(a.node.id, b.node.id)
  }

  lemma OrderOfThree(a: string, b: string, c: string)
    ensures StringLe(a, b) || StringLe(b, a)
    ensures StringLe(a, b) && StringLe(b, a) ==> a == b
    ensures StringLe(a, b) && StringLe(b, c) ==> StringLe(a, c)
  {
    StringLeTotal(a, b);
    if StringLe(a, b) && StringLe(b, c) {
      StringLeTransitive(a, b, c);
    }
  }

  lemma HitOrder()
    ensures TotalOrder(HitLe)
    ensures forall a, b :: HitLe(a, b) && HitLe(b, a) ==> a.depth == b.depth && a.node.id == b.node.id
  {
    forall a: Hit, b: Hit
      ensures HitLe(a, b) || HitLe(b, a)
      ensures HitLe(a, b) && HitLe(b, a) ==> a.depth == b.depth && a.node.id == b.node.id
    {
      OrderOfThree(a.node.path, b.node.path, []);
      OrderOfThree(a.node.id, b.node.id, []);
    }
    forall a: Hit, b: Hit, c: Hit | HitLe(a, b) && HitLe(b, c)
      ensures HitLe(a, c)
    {
      OrderOfThree(a.node.path, b.node.path, c.node.path);
      OrderOfThree(b.node.path, a.node.path, c.node.path);
      OrderOfThree(b.node.path, c.node.path, a.node.path);
      OrderOfThree(a.node.id, b.node.id, c.node.id);
    }
  }

  ghost function Elements(s: seq<string>): set<string> {
    set x | x in s
  }

  // ---------- What impact must return ----------

  /** The nodes within `maxDepth` of a seed and no others, each once, with its
      shortest distance and a chain of that length, ordered by depth and location. */
  ghost predicate Answers(nodes: map<string, Node>, q: Query, seeds: set<string>, maxDepth: nat, hits: seq<Hit>) {
    && SortedBy(hits, HitLe)
    && (forall i, j | 0 <= i < j < |hits| :: hits[i].node.id != hits[j].node.id)
    && (forall h | h in hits :: AnswersHit(nodes, q, seeds, maxDepth, h))
    && (forall id, d: nat | id !in seeds && d <= maxDepth && q.Reaches(seeds, id, d) :: exists h | h in hits :: h.node.id == id)
  }

  ghost predicate AnswersHit(nodes: map<string, Node>, q: Query, seeds: set<string>, maxDepth: nat, h: Hit) {
    && h.node.id in nodes && nodes[h.node.id] == h.node && h.node.id !in seeds
    && h.depth <= maxDepth && q.Distance(seeds, h.node.id, h.depth)
    && |h.path| == h.depth && exists from | from in seeds :: q.Chain(from, h.path, h.node.id)
  }

  /** Every hit has a walk of its depth, and no walk to it is shorter; whatever a
      walk within the limit leads to is hit. */
  ghost predicate Walked(q: Query, seeds: set<string>, maxDepth: nat, hits: seq<Hit>) {
    && (forall h | h in hits :: |h.path| == h.depth && Walk(q.edges, q.direction, q.heuristic, seeds, h.path, h.node.id))
    && (forall path, to | Walk(q.edges, q.direction, q.heuristic, seeds, path, to) && |path| <= maxDepth && to !in seeds ::
          exists h | h in hits :: h.node.id == to && h.depth <= |path|)
  }

  /** By depth, then path, then line, then id. */
  ghost predicate Located(hits: seq<Hit>) {
    forall i, j | 0 <= i < j < |hits| :: LocatedPair(hits[i], hits[j])
  }

  ghost predicate LocatedPair(a: Hit, b: Hit) {
    && a.depth <= b.depth
    && (a.depth == b.depth ==> StringLe(a.node.path, b.node.path))
    && (a.depth == b.depth && a.node.path == b.node.path ==> a.node.startLine <= b.node.startLine)
    && (a.depth == b.depth && a.node.path == b.node.path && a.node.startLine == b.node.startLine ==> StringLe(a.node.id, b.node.id))
  }

  lemma SortedLocated(hits: seq<Hit>)
    requires SortedBy(hits, HitLe)
    ensures Located(hits)
  {
    forall i, j | 0 <= i < j < |hits|
      ensures LocatedPair(hits[i], hits[j])
    {
      assert HitLe(hits[i], hits[j]);
      OrderOfThree(hits[i].node.path, hits[i].node.path, hits[i].node.path);
    }
  }

  lemma AnswersWalked(nodes: map<string, Node>, q: Query, seeds: set<string>, maxDepth: nat, hits: seq<Hit>)
    requires Answers(nodes, q, seeds, maxDepth, hits)
    ensures Walked(q, seeds, maxDepth, hits)
  {
    forall h | h in hits
      ensures |h.path| == h.depth && Walk(q.edges, q.direction, q.heuristic, seeds, h.path, h.node.id)
    {
      HitWalks(nodes, q, seeds, maxDepth, h);
    }
    forall path, to | Walk(q.edges, q.direction, q.heuristic, seeds, path, to) && |path| <= maxDepth && to !in seeds
      ensures exists h | h in hits :: h.node.id == to && h.depth <= |path|
    {
      WalkHits(nodes, q, seeds, maxDepth, hits, path, to);
    }
  }

  lemma HitWalks(nodes: map<string, Node>, q: Query, seeds: set<string>, maxDepth: nat, h: Hit)
    requires AnswersHit(nodes, q, seeds, maxDepth, h)
    ensures |h.path| == h.depth && Walk(q.edges, q.direction, q.heuristic, seeds, h.path, h.node.id)
  {
    var from :| from in seeds && q.Chain(from, h.path, h.node.id);
    ChainIsWalk(q, seeds, from, h.path, h.node.id);
  }

  lemma WalkHits(nodes: map<string, Node>, q: Query, seeds: set<string>, maxDepth: nat, hits: seq<Hit>, path: seq<Edge>, to: string)
    requires Answers(nodes, q, seeds, maxDepth, hits)
    requires Walk(q.edges, q.direction, q.heuristic, seeds, path, to) && |path| <= maxDepth && to !in seeds
    ensures exists h | h in hits :: h.node.id == to && h.depth <= |path|
  {
    WalkIsChain(q, seeds, path, to);
    assert q.Reaches(seeds, to, |path|);
    var h :| h in hits && h.node.id == to;
    assert AnswersHit(nodes, q, seeds, maxDepth, h);
  }

  // ---------- The search ----------

  /** The dictionaries and the queue of one traversal; `order` is the order in which
      nodes were added to the dictionaries. */
  datatype Search = Search(visited: map<string, nat>, paths: map<string, seq<Edge>>, frontier: seq<string>, order: seq<string>)

  function Start(seeds: seq<string>): Search {
    Search(map id | id in seeds :: 0, map id | id in seeds :: [], seeds, seeds)
  }

  /** Every visited node has a chain of its recorded depth from a seed. */
  ghost predicate Recorded(nodes: map<string, Node>, q: Query, seeds: set<string>, maxDepth: nat, s: Search) {
    && s.visited.Keys == s.paths.Keys && seeds <= s.visited.Keys <= nodes.Keys
    && forall v | v in s.visited ::
         && |s.paths[v]| == s.visited[v] <= maxDepth
         && (v in seeds ==> s.visited[v] == 0)
         && Joined(q, seeds, s.paths[v], v)
  }

  ghost predicate Joined(q: Query, seeds: set<string>, path: seq<Edge>, to: string) {
    exists from | from in seeds :: q.Chain(from, path, to)
  }

  /** The queue holds visited nodes in order of depth. */
  ghost predicate Queued(s: Search) {
    && (forall v | v in s.frontier :: v in s.visited)
    && (forall i, j | 0 <= i < j < |s.frontier| :: s.frontier[i] != s.frontier[j])
    && (forall i, j | 0 <= i < j < |s.frontier| :: s.visited[s.frontier[i]] <= s.visited[s.frontier[j]])
  }

  /** Nothing visited is deeper than `depth + 1`, nothing queued is shallower than
      `depth`, and nothing that has left the queue is deeper than `depth`. */
  ghost predicate Level(s: Search, depth: nat) {
    && (forall v | v in s.visited :: s.visited[v] <= depth + 1)
    && (forall v | v in s.frontier && v in s.visited :: depth <= s.visited[v])
    && (forall v | v in s.visited && v !in s.frontier :: s.visited[v] <= depth)
  }

  /** The far end of every edge of `v` that the traversal follows is visited, at
      most one deeper. */
  ghost predicate Expanded(q: Query, maxDepth: nat, visited: map<string, nat>, v: string)
    requires v in visited
  {
    visited[v] < maxDepth ==> forall e: Edge | q.Admits(e) && q.direction.Near(e) == v :: Followed(q, visited, v, e)
  }

  ghost predicate Followed(q: Query, visited: map<string, nat>, v: string, e: Edge)
    requires v in visited
  {
    q.direction.Far(e) in visited && visited[q.direction.Far(e)] <= visited[v] + 1
  }

  ghost predicate Closed(q: Query, maxDepth: nat, s: Search, except: set<string>) {
    forall v | v in s.visited && v !in s.frontier && v !in except :: Expanded(q, maxDepth, s.visited, v)
  }

  /** Visiting a new node keeps what older nodes have been expanded to. */
  lemma ExpandedMonotone(q: Query, maxDepth: nat, visited: map<string, nat>, v: string, w: string, d: nat)
    requires v in visited && w !in visited && Expanded(q, maxDepth, visited, v)
    ensures Expanded(q, maxDepth, visited[w := d], v)
  {
    if visited[v] < maxDepth {
      forall e: Edge | q.Admits(e) && q.direction.Near(e) == v
        ensures Followed(q, visited[w := d], v, e)
      {
        assert Followed(q, visited, v, e);
      }
    }
  }

  /** A chain from a seed is walked completely by the time the queue is empty. */
  lemma {:induction false} ChainVisited(q: Query, maxDepth: nat, s: Search, seeds: set<string>, from: string, path: seq<Edge>, to: string)
    requires s.frontier == [] && Closed(q, maxDepth, s, {})
    requires seeds <= s.visited.Keys && from in seeds && s.visited[from] == 0
    requires q.Chain(from, path, to) && |path| <= maxDepth
    ensures to in s.visited && s.visited[to] <= |path|
    decreases |path|
  {
    if path != [] {
      var last := path[|path| - 1];
      ChainVisited(q, maxDepth, s, seeds, from, path[..|path| - 1], q.direction.Near(last));
      assert Expanded(q, maxDepth, s.visited, q.direction.Near(last));
      assert Followed(q, s.visited, q.direction.Near(last), last);
    }
  }

  /** An empty queue means that the visited nodes are exactly the reachable ones
      and that their recorded depths are the distances. */
  lemma SearchComplete(nodes: map<string, Node>, q: Query, seeds: set<string>, maxDepth: nat, s: Search)
    requires Recorded(nodes, q, seeds, maxDepth, s) && s.frontier == [] && Closed(q, maxDepth, s, {})
    ensures forall v, d: nat | d <= maxDepth && q.Reaches(seeds, v, d) :: v in s.visited && s.visited[v] <= d
    ensures forall v | v in s.visited :: q.Distance(seeds, v, s.visited[v])
  {
    forall v, d: nat | d <= maxDepth && q.Reaches(seeds, v, d)
      ensures v in s.visited && s.visited[v] <= d
    {
      var from, path :| from in seeds && |path| == d && q.Chain(from, path, v);
      ChainVisited(q, maxDepth, s, seeds, from, path, v);
    }
    forall v | v in s.visited
      ensures q.Distance(seeds, v, s.visited[v])
    {
      assert Joined(q, seeds, s.paths[v], v);
    }
  }

  // ---------- The order of discovery ----------

  ghost predicate SameKey(a: Edge, b: Edge) {
    a.source == b.source && a.target == b.target && a.relation == b.relation
  }

  lemma EdgeOrder()
    ensures TotalOrder(EdgeLe)
    ensures forall a, b :: EdgeLe(a, b) && EdgeLe(b, a) <==> SameKey(a, b)
  {
    forall a: Edge, b: Edge
      ensures EdgeLe(a, b) || EdgeLe(b, a)
      ensures EdgeLe(a, b) && EdgeLe(b, a) <==> SameKey(a, b)
    {
      OrderOfThree(a.source, b.source, []);
      OrderOfThree(a.target, b.target, []);
      OrderOfThree(a.relation, b.relation, []);
    }
    forall a: Edge, b: Edge, c: Edge | EdgeLe(a, b) && EdgeLe(b, c)
      ensures EdgeLe(a, c)
    {
      OrderOfThree(a.source, b.source, c.source);
      OrderOfThree(b.source, a.source, c.source);
      OrderOfThree(b.source, c.source, a.source);
      OrderOfThree(a.target, b.target, c.target);
      OrderOfThree(b.target, a.target, c.target);
      OrderOfThree(b.target, c.target, a.target);
      OrderOfThree(a.relation, b.relation, c.relation);
    }
  }

  /** The queue is the end of the order of discovery. */
  ghost predicate Tracked(s: Search) {
    && Unique(s.order) && s.visited.Keys == s.paths.Keys && (forall v :: v in s.order <==> v in s.visited)
    && |s.frontier| <= |s.order| && s.frontier == s.order[|s.order| - |s.frontier|..]
  }

  /** How many nodes have left the queue. */
  ghost function Left(s: Search): nat
    requires Tracked(s)
  {
    |s.order| - |s.frontier|
  }

  /** `e` leaves a node that was discovered before the one `f` leaves, or the same
      node and does not come after `f`. */
  ghost predicate NotAfter(order: seq<string>, direction: Direction, e: Edge, f: Edge) {
    && direction.Near(e) in order && direction.Near(f) in order
    && (|| IndexOf(order, direction.Near(e)) < IndexOf(order, direction.Near(f))
        || (direction.Near(e) == direction.Near(f) && EdgeLe(e, f)))
  }

  /** The k-th node was discovered over an edge, and is no seed. */
  ghost predicate Reached(s: Search, k: nat)
    requires Tracked(s) && k < |s.order|
  {
    s.paths[s.order[k]] != []
  }

  ghost function Last(s: Search, k: nat): Edge
    requires Tracked(s) && k < |s.order| && Reached(s, k)
  {
    s.paths[s.order[k]][|s.paths[s.order[k]]| - 1]
  }

  /** That edge comes before `f`. */
  ghost predicate Earlier(direction: Direction, s: Search, k: nat, f: Edge)
    requires Tracked(s) && k < |s.order|
  {
    Reached(s, k) && NotAfter(s.order, direction, Last(s, k), f)
  }

  /** The k-th node was discovered from an earlier one, and over the first of all
      edges that lead to it. */
  ghost predicate FoundAt(q: Query, s: Search, k: nat)
    requires Tracked(s) && k < |s.order|
  {
    && Reached(s, k)
    && var e := Last(s, k);
    && q.direction.Near(e) in s.order && s.paths[s.order[k]] == s.paths[q.direction.Near(e)] + [e]
    && FirstTo(q, s.order, e, s.order[k])
  }

  /** No edge to `to` comes before `e`. */
  ghost predicate FirstTo(q: Query, order: seq<string>, e: Edge, to: string) {
    forall f | q.Admits(f) && q.direction.Far(f) == to && q.direction.Near(f) in order :: NotAfter(order, q.direction, e, f)
  }

  ghost predicate ParentBefore(direction: Direction, s: Search, k: nat, n: nat)
    requires Tracked(s) && k < |s.order|
  {
    Reached(s, k) && IndexOf(s.order, direction.Near(Last(s, k))) < n
  }

  /** After the seeds, nodes were discovered in the order of the edges that led to them. */
  ghost predicate Traced(q: Query, roots: seq<string>, s: Search) {
    && Tracked(s) && roots <= s.order
    && AllFound(q, |roots|, s) && AllInOrder(q.direction, |roots|, s)
  }

  ghost predicate AllFound(q: Query, n: nat, s: Search)
    requires Tracked(s)
  {
    forall k | n <= k < |s.order| :: FoundAt(q, s, k) && ParentBefore(q.direction, s, k, Left(s))
  }

  ghost predicate AllInOrder(direction: Direction, n: nat, s: Search)
    requires Tracked(s)
  {
    forall k, l | n <= k < l < |s.order| :: EarlierPair(direction, s, k, l)
  }

  ghost predicate EarlierPair(direction: Direction, s: Search, k: nat, l: nat)
    requires Tracked(s) && k < |s.order| && l < |s.order|
  {
    Reached(s, l) && Earlier(direction, s, k, Last(s, l))
  }

  /** `current` has just left the queue. */
  ghost predicate Popped(q: Query, roots: seq<string>, s: Search, current: string) {
    && Traced(q, roots, s) && Left(s) > 0 && current == s.order[Left(s) - 1]
    && forall k | |roots| <= k < |s.order| :: FoundAt(q, s, k) && ParentBefore(q.direction, s, k, Left(s) - 1)
  }

  /** The edges of `current`, sorted. */
  ghost predicate AllFrom(q: Query, current: string, edges: seq<Edge>) {
    && SortedBy(edges, EdgeLe) && (forall j | 0 <= j < |edges| :: q.direction.Near(edges[j]) == current)
    && forall f | f in q.edges && q.direction.Near(f) == current :: f in edges
  }

  /** `current` is being expanded, and the first i of its edges have been followed. */
  ghost predicate Busy(q: Query, roots: seq<string>, s: Search, current: string, edges: seq<Edge>, i: nat) {
    && Traced(q, roots, s) && Left(s) > 0 && current == s.order[Left(s) - 1]
    && AllFrom(q, current, edges) && i <= |edges|
    && (forall k, j | |roots| <= k < |s.order| && i <= j < |edges| :: Earlier(q.direction, s, k, edges[j]))
    && (forall j | 0 <= j < i :: q.Admits(edges[j]) ==> q.direction.Far(edges[j]) in s.visited)
  }

  lemma SeedsTraced(q: Query, seeds: seq<string>)
    requires Unique(seeds)
    ensures Traced(q, seeds, Start(seeds))
  {
  }

  lemma PopKeeps(q: Query, s: Search, s': Search, k: nat)
    requires Tracked(s) && Tracked(s') && s'.order == s.order && s'.paths == s.paths && Left(s) <= Left(s')
    requires k < |s.order| && FoundAt(q, s, k) && ParentBefore(q.direction, s, k, Left(s))
    ensures FoundAt(q, s', k) && ParentBefore(q.direction, s', k, Left(s)) && ParentBefore(q.direction, s', k, Left(s'))
  {
  }

  lemma PopInOrder(direction: Direction, n: nat, s: Search, s': Search)
    requires Tracked(s) && Tracked(s') && s'.order == s.order && s'.paths == s.paths && AllInOrder(direction, n, s)
    ensures AllInOrder(direction, n, s')
  {
    forall k, l | n <= k < l < |s.order|
      ensures EarlierPair(direction, s', k, l)
    {
      assert EarlierPair(direction, s, k, l);
    }
  }

  lemma PopTraced(q: Query, roots: seq<string>, s: Search)
    requires Traced(q, roots, s) && s.frontier != []
    ensures Popped(q, roots, s.(frontier := s.frontier[1..]), s.frontier[0])
  {
    var s' := s.(frontier := s.frontier[1..]);
    assert Tracked(s') && Left(s') == Left(s) + 1;
    PopInOrder(q.direction, |roots|, s, s');
    forall k | |roots| <= k < |s.order|
      ensures FoundAt(q, s', k) && ParentBefore(q.direction, s', k, Left(s)) && ParentBefore(q.direction, s', k, Left(s'))
    {
      assert FoundAt(q, s, k) && ParentBefore(q.direction, s, k, Left(s));
      PopKeeps(q, s, s', k);
    }
  }

  lemma PoppedBusy(q: Query, roots: seq<string>, s: Search, current: string, edges: seq<Edge>)
    requires Popped(q, roots, s, current) && AllFrom(q, current, edges)
    ensures Busy(q, roots, s, current, edges, 0)
  {
    IndexOfAt(s.order, Left(s) - 1);
    forall k, j | |roots| <= k < |s.order| && 0 <= j < |edges|
      ensures Earlier(q.direction, s, k, edges[j])
    {
      assert ParentBefore(q.direction, s, k, Left(s) - 1) && FoundAt(q, s, k);
    }
  }

  lemma BusyNext(q: Query, roots: seq<string>, s: Search, current: string, edges: seq<Edge>, i: nat)
    requires Busy(q, roots, s, current, edges, i) && i < |edges|
    ensures (q.Admits(edges[i]) ==> q.direction.Far(edges[i]) in s.visited) ==> Busy(q, roots, s, current, edges, i + 1)
  {
  }

  lemma {:induction false} IndexKept(order: seq<string>, x: string, y: string)
    ensures y in order ==> IndexOf(order + [x], y) == IndexOf(order, y)
    ensures x !in order ==> IndexOf(order + [x], x) == |order|
  {
    if order != [] {
      IndexKept(order[1..], x, y);
      assert (order + [x])[1..] == order[1..] + [x];
    }
  }

  /** A new node has been discovered. */
  ghost predicate Grew(s: Search, s': Search, neighbor: string) {
    && Tracked(s) && Tracked(s') && Left(s') == Left(s)
    && neighbor !in s.order && s'.order == s.order + [neighbor]
    && forall v | v in s.order :: s'.paths[v] == s.paths[v]
  }

  lemma VisitGrew(s: Search, current: string, e: Edge, neighbor: string)
    requires Tracked(s) && current in s.visited && neighbor !in s.visited
    ensures Grew(s, Visit(s, current, e, neighbor), neighbor)
  {
    var s' := Visit(s, current, e, neighbor);
    assert s'.order[|s.order| - |s.frontier|..] == s.order[|s.order| - |s.frontier|..] + [neighbor];
  }

  lemma NotAfterKept(order: seq<string>, x: string, direction: Direction, e: Edge, f: Edge)
    requires x !in order
    ensures NotAfter(order, direction, e, f) ==> NotAfter(order + [x], direction, e, f)
    ensures direction.Near(e) in order && direction.Near(f) == x ==> NotAfter(order + [x], direction, e, f)
  {
    IndexKept(order, x, direction.Near(e));
    IndexKept(order, x, direction.Near(f));
  }

  lemma FirstToKept(q: Query, order: seq<string>, x: string, e: Edge, to: string)
    requires FirstTo(q, order, e, to) && q.direction.Near(e) in order && x !in order
    ensures FirstTo(q, order + [x], e, to)
  {
    forall f | q.Admits(f) && q.direction.Far(f) == to && q.direction.Near(f) in order + [x]
      ensures NotAfter(order + [x], q.direction, e, f)
    {
      NotAfterKept(order, x, q.direction, e, f);
    }
  }

  lemma KeepsLast(s: Search, s': Search, neighbor: string, k: nat)
    requires Grew(s, s', neighbor) && k < |s.order|
    ensures s'.order[k] == s.order[k] && (Reached(s', k) <==> Reached(s, k)) && (Reached(s, k) ==> Last(s', k) == Last(s, k))
  {
    assert s'.order[k] == s.order[k] && s.order[k] in s.order;
  }

  /** What was discovered before stays as it was. */
  lemma KeepsFound(q: Query, s: Search, s': Search, neighbor: string, k: nat)
    requires Grew(s, s', neighbor) && k < |s.order| && FoundAt(q, s, k) && ParentBefore(q.direction, s, k, Left(s))
    ensures FoundAt(q, s', k) && ParentBefore(q.direction, s', k, Left(s'))
  {
    KeepsLast(s, s', neighbor, k);
    FirstToKept(q, s.order, neighbor, Last(s, k), s.order[k]);
    IndexKept(s.order, neighbor, q.direction.Near(Last(s, k)));
  }

  lemma KeepsEarlier(direction: Direction, s: Search, s': Search, neighbor: string, k: nat, f: Edge)
    requires Grew(s, s', neighbor) && k < |s.order| && Earlier(direction, s, k, f)
    ensures Earlier(direction, s', k, f)
  {
    KeepsLast(s, s', neighbor, k);
    NotAfterKept(s.order, neighbor, direction, Last(s, k), f);
  }

  lemma KeepsPair(direction: Direction, s: Search, s': Search, neighbor: string, k: nat, l: nat)
    requires Grew(s, s', neighbor) && k < |s.order| && l < |s.order| && EarlierPair(direction, s, k, l)
    ensures EarlierPair(direction, s', k, l)
  {
    KeepsLast(s, s', neighbor, l);
    KeepsEarlier(direction, s, s', neighbor, k, Last(s, l));
  }

  /** A node that is met for the first time is met over the first edge to it. */
  lemma VisitFirst(nodes: map<string, Node>, q: Query, seeds: set<string>, roots: seq<string>, maxDepth: nat, s: Search,
                   current: string, edges: seq<Edge>, i: nat, f: Edge)
    requires Expanding(nodes, q, seeds, maxDepth, s, current) && s.visited[current] < maxDepth
    requires Busy(q, roots, s, current, edges, i) && i < |edges| && q.Admits(edges[i]) && q.direction.Far(edges[i]) !in s.visited
    requires q.Admits(f) && q.direction.Far(f) == q.direction.Far(edges[i]) && q.direction.Near(f) in s.order
    ensures NotAfter(s.order, q.direction, edges[i], f)
  {
    var near := q.direction.Near(f);
    IndexOfAt(s.order, Left(s) - 1);
    if near == current {
      var j :| 0 <= j < |edges| && edges[j] == f;
      EdgeOrder();
    } else if IndexOf(s.order, near) < Left(s) - 1 {
      NotQueued(s, near);
    }
  }

  lemma NewFound(q: Query, s: Search, s': Search, current: string, e: Edge)
    requires Over(q.direction, s, s', current, e) && current in s.order && q.direction.Near(e) == current
    requires FirstTo(q, s.order, e, q.direction.Far(e))
    ensures FoundAt(q, s', |s.order|)
  {
    FirstToKept(q, s.order, q.direction.Far(e), e, q.direction.Far(e));
    assert Reached(s', |s.order|) && Last(s', |s.order|) == e;
  }

  lemma VisitFound(nodes: map<string, Node>, q: Query, seeds: set<string>, roots: seq<string>, maxDepth: nat, s: Search,
                   s': Search, current: string, edges: seq<Edge>, i: nat)
    requires Expanding(nodes, q, seeds, maxDepth, s, current) && s.visited[current] < maxDepth
    requires Busy(q, roots, s, current, edges, i) && i < |edges| && q.Admits(edges[i]) && q.direction.Far(edges[i]) !in s.visited
    requires Grew(s, s', q.direction.Far(edges[i])) && s' == Visit(s, current, edges[i], q.direction.Far(edges[i]))
    ensures FoundAt(q, s', |s.order|)
  {
    var e, neighbor := edges[i], q.direction.Far(edges[i]);
    forall f | q.Admits(f) && q.direction.Far(f) == neighbor && q.direction.Near(f) in s.order
      ensures NotAfter(s.order, q.direction, e, f)
    {
      VisitFirst(nodes, q, seeds, roots, maxDepth, s, current, edges, i, f);
    }
    NewFound(q, s, s', current, e);
  }

  lemma NotQueued(s: Search, v: string)
    requires Tracked(s) && v in s.order && IndexOf(s.order, v) < Left(s)
    ensures v in s.visited && v !in s.frontier
  {
  }

  ghost predicate Over(direction: Direction, s: Search, s': Search, current: string, e: Edge) {
    && Grew(s, s', direction.Far(e)) && current in s.paths && direction.Far(e) in s'.paths
    && s'.paths[direction.Far(e)] == s.paths[current] + [e]
  }

  lemma NewParent(direction: Direction, s: Search, s': Search, current: string, e: Edge)
    requires Over(direction, s, s', current, e)
    requires Left(s) > 0 && current == s.order[Left(s) - 1] && direction.Near(e) == current
    ensures ParentBefore(direction, s', |s.order|, Left(s'))
  {
    IndexOfAt(s.order, Left(s) - 1);
    IndexKept(s.order, direction.Far(e), current);
  }

  lemma VisitAllFound(q: Query, n: nat, s: Search, s': Search, neighbor: string)
    requires Grew(s, s', neighbor) && AllFound(q, n, s)
    requires FoundAt(q, s', |s.order|) && ParentBefore(q.direction, s', |s.order|, Left(s'))
    ensures AllFound(q, n, s')
  {
    forall k | n <= k < |s.order|
      ensures FoundAt(q, s', k) && ParentBefore(q.direction, s', k, Left(s'))
    {
      assert FoundAt(q, s, k) && ParentBefore(q.direction, s, k, Left(s));
      KeepsFound(q, s, s', neighbor, k);
    }
  }

  lemma VisitAllInOrder(direction: Direction, n: nat, s: Search, s': Search, current: string, e: Edge)
    requires Over(direction, s, s', current, e)
    requires AllInOrder(direction, n, s) && forall k | n <= k < |s.order| :: Earlier(direction, s, k, e)
    ensures AllInOrder(direction, n, s')
  {
    forall k, l | n <= k < l < |s'.order|
      ensures EarlierPair(direction, s', k, l)
    {
      if l == |s.order| {
        KeepsEarlier(direction, s, s', direction.Far(e), k, e);
      } else {
        assert EarlierPair(direction, s, k, l);
        KeepsPair(direction, s, s', direction.Far(e), k, l);
      }
    }
  }

  lemma VisitBusy(nodes: map<string, Node>, q: Query, seeds: set<string>, roots: seq<string>, maxDepth: nat, s: Search,
                  current: string, edges: seq<Edge>, i: nat)
    requires Expanding(nodes, q, seeds, maxDepth, s, current) && s.visited[current] < maxDepth
    requires Busy(q, roots, s, current, edges, i) && i < |edges| && q.Admits(edges[i]) && q.direction.Far(edges[i]) !in s.visited
    ensures Busy(q, roots, Visit(s, current, edges[i], q.direction.Far(edges[i])), current, edges, i + 1)
  {
    var e, neighbor, last := edges[i], q.direction.Far(edges[i]), |s.order|;
    var s' := Visit(s, current, e, neighbor);
    VisitGrew(s, current, e, neighbor);
    VisitFound(nodes, q, seeds, roots, maxDepth, s, s', current, edges, i);
    NewParent(q.direction, s, s', current, e);
    VisitAllFound(q, |roots|, s, s', neighbor);
    VisitAllInOrder(q.direction, |roots|, s, s', current, e);
    forall k, j | |roots| <= k < |s'.order| && i < j < |edges|
      ensures Earlier(q.direction, s', k, edges[j])
    {
      if k == last {
        EdgeOrder();
      } else {
        assert Earlier(q.direction, s, k, edges[j]);
        KeepsEarlier(q.direction, s, s', neighbor, k, edges[j]);
      }
    }
  }

  // ---------- Which path is reported ----------

  ghost function Origin(direction: Direction, path: seq<Edge>, to: string): string {
    if path == [] then to else direction.Near(path[0])
  }

  ghost predicate SameKeys(a: seq<Edge>, b: seq<Edge>) {
    |a| == |b| && forall i | 0 <= i < |a| :: SameKey(a[i], b[i])
  }

  /** The first edges that differ are at `i`, and that of `a` comes first. */
  ghost predicate AheadAt(a: seq<Edge>, b: seq<Edge>, i: nat) {
    && i < |a| && i < |b| && SameKeys(a[..i], b[..i])
    && EdgeLe(a[i], b[i]) && !EdgeLe(b[i], a[i])
  }

  /** The way `a` from the seed `x` comes before the way `b` from the seed `y`: the
      seed was given earlier, or it is the same and the first difference decides. */
  ghost predicate Ahead(seeds: seq<string>, x: string, a: seq<Edge>, y: string, b: seq<Edge>) {
    && x in seeds && y in seeds
    && (IndexOf(seeds, x) < IndexOf(seeds, y) || (x == y && exists i: nat :: AheadAt(a, b, i)))
  }

  /** `a` comes before `b` or follows edges of the same key from the same seed. */
  ghost predicate NoLater(seeds: seq<string>, x: string, a: seq<Edge>, y: string, b: seq<Edge>) {
    Ahead(seeds, x, a, y, b) || (x == y && SameKeys(a, b))
  }

  /** No walk as short as the path of a hit comes before it. */
  ghost predicate Foremost(q: Query, seeds: seq<string>, hits: seq<Hit>) {
    forall h, path | h in hits && Walk(q.edges, q.direction, q.heuristic, Elements(seeds), path, h.node.id) && |path| == |h.path| ::
      NoLater(seeds, Origin(q.direction, h.path, h.node.id), h.path, Origin(q.direction, path, h.node.id), path)
  }

  lemma AheadExtended(seeds: seq<string>, x: string, a: seq<Edge>, y: string, b: seq<Edge>, e: Edge, f: Edge)
    requires Ahead(seeds, x, a, y, b)
    ensures Ahead(seeds, x, a + [e], y, b + [f])
  {
    if x == y {
      var i: nat :| AheadAt(a, b, i);
      assert (a + [e])[..i] == a[..i] && (b + [f])[..i] == b[..i];
      assert AheadAt(a + [e], b + [f], i);
    }
  }

  lemma TieExtended(seeds: seq<string>, x: string, a: seq<Edge>, b: seq<Edge>, e: Edge, f: Edge)
    requires x in seeds && SameKeys(a, b) && EdgeLe(e, f)
    ensures NoLater(seeds, x, a + [e], x, b + [f])
    ensures !SameKey(e, f) ==> Ahead(seeds, x, a + [e], x, b + [f])
  {
    EdgeOrder();
    if !SameKey(e, f) {
      assert (a + [e])[..|a|] == a && (b + [f])[..|a|] == b;
      assert AheadAt(a + [e], b + [f], |a|);
    }
  }

  lemma AheadOfNoLater(seeds: seq<string>, x: string, a: seq<Edge>, y: string, b: seq<Edge>, z: string, c: seq<Edge>)
    requires Ahead(seeds, x, a, y, b) && NoLater(seeds, y, b, z, c)
    ensures Ahead(seeds, x, a, z, c)
  {
    if x == y == z {
      var i: nat :| AheadAt(a, b, i);
      if SameKeys(b, c) {
        AheadThrough(a, b, c, i, i);
      } else {
        var j: nat :| AheadAt(b, c, j);
        AheadThrough(a, b, c, i, j);
      }
    }
  }

  /** `b` parts from `a` at i and from `c` not before j, so that `a` parts from `c`
      where the first of them does. */
  lemma AheadThrough(a: seq<Edge>, b: seq<Edge>, c: seq<Edge>, i: nat, j: nat)
    requires AheadAt(a, b, i) && (AheadAt(b, c, j) || (i <= j && SameKeys(b, c)))
    ensures exists k: nat :: AheadAt(a, c, k)
  {
    EdgeOrder();
    var k := if i <= j then i else j;
    forall m | 0 <= m < k
      ensures SameKey(a[..k][m], c[..k][m])
    {
      assert SameKey(a[..i][m], b[..i][m]);
      assert AheadAt(b, c, j) ==> SameKey(b[..j][m], c[..j][m]);
    }
    assert i < j && AheadAt(b, c, j) ==> SameKey(b[..j][i], c[..j][i]);
    assert j < i && AheadAt(b, c, j) ==> SameKey(a[..i][j], b[..i][j]);
    assert AheadAt(a, c, k);
  }

  lemma NoLaterBothWays(seeds: seq<string>, x: string, a: seq<Edge>, y: string, b: seq<Edge>)
    requires NoLater(seeds, x, a, y, b) && NoLater(seeds, y, b, x, a)
    ensures x == y && SameKeys(a, b)
  {
    if Ahead(seeds, x, a, y, b) {
      AheadOfNoLater(seeds, x, a, y, b, x, a);
    }
  }

  lemma RootsFirst(nodes: map<string, Node>, q: Query, roots: seq<string>, maxDepth: nat, s: Search)
    requires Recorded(nodes, q, Elements(roots), maxDepth, s) && Traced(q, roots, s)
    ensures forall i | 0 <= i < |s.order| :: s.order[i] in s.visited && |s.paths[s.order[i]]| == s.visited[s.order[i]]
    ensures forall i | 0 <= i < |roots| :: s.order[i] == roots[i] && s.visited[roots[i]] == 0
    ensures forall i | |roots| <= i < |s.order| :: s.visited[s.order[i]] > 0
  {
    forall i | 0 <= i < |roots|
      ensures s.order[i] == roots[i] && s.visited[roots[i]] == 0
    {
      assert roots[i] in Elements(roots);
    }
    forall i | |roots| <= i < |s.order|
      ensures s.visited[s.order[i]] > 0
    {
      assert FoundAt(q, s, i);
    }
  }

  /** The way to the k-th node comes before the way to the l-th. */
  ghost predicate AheadOf(direction: Direction, roots: seq<string>, s: Search, k: nat, l: nat)
    requires Tracked(s) && k < |s.order| && l < |s.order|
  {
    var v, w := s.order[k], s.order[l];
    Ahead(roots, Origin(direction, s.paths[v], v), s.paths[v], Origin(direction, s.paths[w], w), s.paths[w])
  }

  /** Of two nodes of one depth the one discovered first has the way that comes first. */
  lemma {:induction false} DiscoveredAhead(nodes: map<string, Node>, q: Query, roots: seq<string>, maxDepth: nat, s: Search,
                                           k: nat, l: nat)
    requires Recorded(nodes, q, Elements(roots), maxDepth, s) && Traced(q, roots, s)
    requires k < l < |s.order| && s.visited[s.order[k]] == s.visited[s.order[l]]
    ensures AheadOf(q.direction, roots, s, k, l)
    decreases s.visited[s.order[k]]
  {
    RootsFirst(nodes, q, roots, maxDepth, s);
    if k < |roots| {
      IndexOfAt(roots, k);
      IndexOfAt(roots, l);
    } else {
      assert FoundAt(q, s, k) && FoundAt(q, s, l) && EarlierPair(q.direction, s, k, l);
      var x, y := Parent(q, s, k), Parent(q, s, l);
      if x != y {
        DiscoveredAhead(nodes, q, roots, maxDepth, s, IndexOf(s.order, x), IndexOf(s.order, y));
        Cousins(q, roots, s, k, l);
      } else {
        Siblings(nodes, q, roots, maxDepth, s, k, l);
      }
    }
  }

  /** The node from which the k-th one was discovered. */
  ghost function Parent(q: Query, s: Search, k: nat): (v: string)
    requires Tracked(s) && k < |s.order| && FoundAt(q, s, k)
    ensures v in s.order && |s.paths[s.order[k]]| == |s.paths[v]| + 1
  {
    q.direction.Near(Last(s, k))
  }

  lemma Cousins(q: Query, roots: seq<string>, s: Search, k: nat, l: nat)
    requires Tracked(s) && k < |s.order| && l < |s.order| && FoundAt(q, s, k) && FoundAt(q, s, l)
    requires AheadOf(q.direction, roots, s, IndexOf(s.order, Parent(q, s, k)), IndexOf(s.order, Parent(q, s, l)))
    ensures AheadOf(q.direction, roots, s, k, l)
  {
    var x, y := Parent(q, s, k), Parent(q, s, l);
    AheadExtended(roots, Origin(q.direction, s.paths[x], x), s.paths[x], Origin(q.direction, s.paths[y], y), s.paths[y],
                  Last(s, k), Last(s, l));
  }

  /** Two nodes discovered from the same one. */
  lemma Siblings(nodes: map<string, Node>, q: Query, roots: seq<string>, maxDepth: nat, s: Search, k: nat, l: nat)
    requires Recorded(nodes, q, Elements(roots), maxDepth, s) && Traced(q, roots, s)
    requires |roots| <= k < l < |s.order| && FoundAt(q, s, k) && FoundAt(q, s, l) && EarlierPair(q.direction, s, k, l)
    requires Parent(q, s, k) == Parent(q, s, l)
    ensures AheadOf(q.direction, roots, s, k, l)
  {
    var e, f, x := Last(s, k), Last(s, l), Parent(q, s, k);
    OriginIsSeed(nodes, q, roots, maxDepth, s, x);
    FarEnds(nodes, q, roots, maxDepth, s, s.order[k], e);
    FarEnds(nodes, q, roots, maxDepth, s, s.order[l], f);
    TieExtended(roots, Origin(q.direction, s.paths[x], x), s.paths[x], s.paths[x], e, f);
  }

  lemma OriginIsSeed(nodes: map<string, Node>, q: Query, roots: seq<string>, maxDepth: nat, s: Search, v: string)
    requires Recorded(nodes, q, Elements(roots), maxDepth, s) && v in s.visited
    ensures Origin(q.direction, s.paths[v], v) in roots
  {
    assert Joined(q, Elements(roots), s.paths[v], v);
    var from :| from in Elements(roots) && q.Chain(from, s.paths[v], v);
    ChainOrigin(q, from, s.paths[v], v);
  }

  lemma {:induction false} ChainOrigin(q: Query, from: string, path: seq<Edge>, to: string)
    requires q.Chain(from, path, to)
    ensures Origin(q.direction, path, to) == from
    decreases |path|
  {
    if path != [] {
      var last := path[|path| - 1];
      ChainOrigin(q, from, path[..|path| - 1], q.direction.Near(last));
    }
  }

  lemma FarEnds(nodes: map<string, Node>, q: Query, roots: seq<string>, maxDepth: nat, s: Search, v: string, e: Edge)
    requires Recorded(nodes, q, Elements(roots), maxDepth, s) && v in s.visited
    requires s.paths[v] != [] && e == s.paths[v][|s.paths[v]| - 1]
    ensures q.Admits(e) && q.direction.Far(e) == v
  {
    assert Joined(q, Elements(roots), s.paths[v], v);
  }

  /** The node before the last one of a shortest chain is one less deep. */
  lemma OneDeeper(q: Query, maxDepth: nat, s: Search, seeds: set<string>, from: string, rest: seq<Edge>, f: Edge)
    requires s.frontier == [] && Closed(q, maxDepth, s, {})
    requires seeds <= s.visited.Keys && from in seeds && s.visited[from] == 0
    requires q.Chain(from, rest, q.direction.Near(f)) && q.Admits(f)
    requires q.direction.Far(f) in s.visited && s.visited[q.direction.Far(f)] == |rest| + 1 <= maxDepth
    ensures q.direction.Near(f) in s.visited && s.visited[q.direction.Near(f)] == |rest|
  {
    ChainVisited(q, maxDepth, s, seeds, from, rest, q.direction.Near(f));
    assert Expanded(q, maxDepth, s.visited, q.direction.Near(f));
    assert Followed(q, s.visited, q.direction.Near(f), f);
  }

  /** The path of a visited node comes before every other shortest chain to it. */
  lemma {:induction false} PathFirst(nodes: map<string, Node>, q: Query, roots: seq<string>, maxDepth: nat, s: Search,
                                     from: string, path: seq<Edge>, to: string)
    requires Recorded(nodes, q, Elements(roots), maxDepth, s) && Traced(q, roots, s)
    requires s.frontier == [] && Closed(q, maxDepth, s, {})
    requires from in roots && q.Chain(from, path, to) && to in s.visited && |path| == s.visited[to]
    ensures NoLater(roots, Origin(q.direction, s.paths[to], to), s.paths[to], from, path)
    decreases |path|
  {
    assert |s.paths[to]| == s.visited[to];
    if path != [] {
      var f, rest := path[|path| - 1], path[..|path| - 1];
      var near := q.direction.Near(f);
      assert path == rest + [f] && from in Elements(roots);
      OneDeeper(q, maxDepth, s, Elements(roots), from, rest, f);
      PathFirst(nodes, q, roots, maxDepth, s, from, rest, near);
      PathFirstOver(nodes, q, roots, maxDepth, s, from, rest, f, to);
    }
  }

  lemma HitsForemost(nodes: map<string, Node>, q: Query, seeds: seq<string>, maxDepth: nat, s: Search, hits: seq<Hit>)
    requires Recorded(nodes, q, Elements(seeds), maxDepth, s) && Traced(q, seeds, s)
    requires s.frontier == [] && Closed(q, maxDepth, s, {})
    requires forall h | h in hits :: h.node.id in s.visited && h.path == s.paths[h.node.id]
    ensures Foremost(q, seeds, hits)
  {
    forall h, path | h in hits && Walk(q.edges, q.direction, q.heuristic, Elements(seeds), path, h.node.id) && |path| == |h.path|
      ensures NoLater(seeds, Origin(q.direction, h.path, h.node.id), h.path, Origin(q.direction, path, h.node.id), path)
    {
      WalkIsChain(q, Elements(seeds), path, h.node.id);
      PathFirst(nodes, q, seeds, maxDepth, s, q.direction.Near(path[0]), path, h.node.id);
    }
  }

  lemma PathFirstOver(nodes: map<string, Node>, q: Query, roots: seq<string>, maxDepth: nat, s: Search,
                      from: string, rest: seq<Edge>, f: Edge, to: string)
    requires Recorded(nodes, q, Elements(roots), maxDepth, s) && Traced(q, roots, s)
    requires q.Admits(f) && q.direction.Far(f) == to && to in s.visited
    requires q.direction.Near(f) in s.visited && s.visited[to] == s.visited[q.direction.Near(f)] + 1
    requires NoLater(roots, Origin(q.direction, s.paths[q.direction.Near(f)], q.direction.Near(f)), s.paths[q.direction.Near(f)], from, rest)
    ensures NoLater(roots, Origin(q.direction, s.paths[to], to), s.paths[to], from, rest + [f])
  {
    var near, k := q.direction.Near(f), IndexOf(s.order, to);
    assert |s.paths[to]| == s.visited[to] && |s.paths[near]| == s.visited[near];
    RootsFirst(nodes, q, roots, maxDepth, s);
    assert FoundAt(q, s, k);
    var e, x := Last(s, k), Parent(q, s, k);
    assert NotAfter(s.order, q.direction, e, f) && |s.paths[x]| == s.visited[x];
    OriginIsSeed(nodes, q, roots, maxDepth, s, x);
    var a, b := Origin(q.direction, s.paths[x], x), Origin(q.direction, s.paths[near], near);
    if x != near {
      DiscoveredAhead(nodes, q, roots, maxDepth, s, IndexOf(s.order, x), IndexOf(s.order, near));
      AheadOfNoLater(roots, a, s.paths[x], b, s.paths[near], from, rest);
      AheadExtended(roots, a, s.paths[x], from, rest, e, f);
    } else if Ahead(roots, a, s.paths[x], from, rest) {
      AheadExtended(roots, a, s.paths[x], from, rest, e, f);
    } else {
      TieExtended(roots, a, s.paths[x], rest, e, f);
    }
  }

  // ---------- The graph ----------

  class EvidenceGraph {
    var nodes: map<string, Node>
    var incoming: map<string, seq<Edge>>
    var outgoing: map<string, seq<Edge>>

    function ListOf(lists: map<string, seq<Edge>>, id: string): seq<Edge> {
      if id in lists then lists[id] else []
    }

    ghost function Edges(): set<Edge>
      reads this
    {
      set id, e | id in outgoing && e in outgoing[id] :: e
    }

    ghost predicate Valid()
      reads this
    {
      && (forall id | id in nodes :: nodes[id].id == id)
      && (forall id, e | id in outgoing && e in outgoing[id] :: e.source == id && e.source in nodes && e.target in nodes)
      && (forall id, e | id in incoming && e in incoming[id] :: e.target == id)
      && (forall e: Edge :: e in ListOf(outgoing, e.source) <==> e in ListOf(incoming, e.target))
    }

    constructor ()
      ensures Valid() && nodes == map[] && Edges() == {}
    {
      nodes, incoming, outgoing := map[], map[], map[];
    }

    method AddNode(node: Node) returns (r: Result<()>)
      requires Valid()
      modifies this
      ensures Valid() && Edges() == old(Edges())
      ensures r.Success? <==> node.id !in old(nodes) || old(nodes)[node.id] == node
      ensures nodes == if r.Success? then old(nodes)[node.id := node] else old(nodes)
    {
      if node.id in nodes && nodes[node.id] != node {
        return Failure(ConflictingIdentity);
      }
      nodes := nodes[node.id := node];
      r := Success(());
    }

    method AddEdge(e: Edge) returns (r: Result<()>)
      requires Valid()
      modifies this
      ensures Valid() && nodes == old(nodes)
      ensures r.Success? <==> e.source in nodes && e.target in nodes
      ensures Edges() == if r.Success? then old(Edges()) + {e} else old(Edges())
    {
      if e.source !in nodes || e.target !in nodes {
        return Failure(MissingEndpoint);
      }
      EdgesListed();
      ghost var was, lists := Edges(), outgoing;
      if e !in ListOf(outgoing, e.source) {
        outgoing := outgoing[e.source := ListOf(outgoing, e.source) + [e]];
        incoming := incoming[e.target := ListOf(incoming, e.target) + [e]];
        assert forall x: Edge :: x in ListOf(outgoing, x.source) <==> x in ListOf(lists, x.source) || x == e;
      }
      EdgesListed();
      assert Edges() == was + {e};
      r := Success(());
    }

    lemma EdgesListed()
      requires Valid()
      ensures forall e: Edge :: e in Edges() <==> e in ListOf(outgoing, e.source)
    {
    }

    /** The edges the traversal looks at from `id`. */
    function Adjacent(direction: Direction, id: string): seq<Edge>
      reads this
    {
      ListOf(if direction.Upstream? then incoming else outgoing, id)
    }

    lemma AdjacentEdges(direction: Direction, id: string)
      requires Valid()
      ensures forall e :: e in Adjacent(direction, id) <==> e in Edges() && direction.Near(e) == id
    {
      forall e: Edge
        ensures e in Adjacent(direction, id) <==> e in Edges() && direction.Near(e) == id
      {
        assert e in Edges() <==> e in ListOf(outgoing, e.source);
      }
    }

    /** The whole traversal: first in, first out. */
    method Traverse(direction: Direction, heuristic: bool, ghost q: Query, seeds: seq<string>, maxDepth: nat)
      returns (s: Search)
      requires Valid() && q == Query(Edges(), direction, heuristic)
      requires forall id | id in seeds :: id in nodes
      requires forall i, j | 0 <= i < j < |seeds| :: seeds[i] != seeds[j]
      ensures Recorded(nodes, q, Elements(seeds), maxDepth, s) && s.frontier == [] && Closed(q, maxDepth, s, {})
      ensures Traced(q, seeds, s)
    {
      ghost var roots := Elements(seeds);
      s := Start(seeds);
      SeedsRecorded(nodes, q, seeds, maxDepth);
      SeedsTraced(q, seeds);
      while s.frontier != []
        invariant Ready(nodes, q, roots, maxDepth, s) && |s.visited| <= |nodes| && Traced(q, seeds, s)
        decreases Measure(|nodes|, s)
      {
        s := Advance(direction, heuristic, q, roots, seeds, maxDepth, s);
      }
    }

    /** One round: the first node leaves the queue and is expanded. */
    method Advance(direction: Direction, heuristic: bool, ghost q: Query, ghost seeds: set<string>, ghost roots: seq<string>,
                   maxDepth: nat, s0: Search)
      returns (s: Search)
      requires Valid() && q == Query(Edges(), direction, heuristic) && Traced(q, roots, s0)
      requires Ready(nodes, q, seeds, maxDepth, s0) && s0.frontier != [] && |s0.visited| <= |nodes|
      ensures Ready(nodes, q, seeds, maxDepth, s) && |s.visited| <= |nodes|
      ensures Measure(|nodes|, s) < Measure(|nodes|, s0) && Traced(q, roots, s)
    {
      var current := s0.frontier[0];
      PopExpanding(nodes, q, seeds, maxDepth, s0);
      PopTraced(q, roots, s0);
      s := s0.(frontier := s0.frontier[1..]);
      if s.visited[current] < maxDepth {
        s := Expand(direction, heuristic, q, seeds, roots, maxDepth, current, s);
      }
      NextLevel(nodes, q, seeds, maxDepth, s, current);
      MeasureDrops(|nodes|, s0, s);
    }

    method Impact(seedIds: seq<string>, direction: Direction, maxDepth: int, heuristic: bool) returns (r: Result<seq<Hit>>)
      requires Valid()
      ensures r == Failure(InvalidDepth) <==> maxDepth < 1
      ensures r == Failure(UnknownSeed) <==> maxDepth >= 1 && exists id | id in seedIds :: id !in nodes
      ensures r.Success? <==> maxDepth >= 1 && forall id | id in seedIds :: id in nodes
      ensures r.Success? ==>
        Answers(nodes, Query(Edges(), direction, heuristic), Elements(seedIds), maxDepth, r.value)
      ensures r.Success? ==> Walked(Query(Edges(), direction, heuristic), Elements(seedIds), maxDepth, r.value) && Located(r.value)
      ensures r.Success? ==> Foremost(Query(Edges(), direction, heuristic), seedIds, r.value)
    {
      if maxDepth < 1 {
        return Failure(InvalidDepth);
      }
      if exists id :: id in seedIds && id !in nodes {
        return Failure(UnknownSeed);
      }
      ghost var q := Query(Edges(), direction, heuristic);
      var seeds := Distinct(seedIds);
      assert Elements(seeds) == Elements(seedIds);
      var s := Traverse(direction, heuristic, q, seeds, maxDepth);
      SearchComplete(nodes, q, Elements(seeds), maxDepth, s);
      var hits := Collect(nodes, s, seeds);
      CollectAnswers(nodes, q, seeds, maxDepth, s, hits, Sort(hits, HitLe));
      AnswersWalked(nodes, q, Elements(seeds), maxDepth, Sort(hits, HitLe));
      SortedLocated(Sort(hits, HitLe));
      MultisetMembers(Sort(hits, HitLe), hits);
      HitsForemost(nodes, q, seeds, maxDepth, s, Sort(hits, HitLe));
      ForemostGiven(q, seedIds, Sort(hits, HitLe));
      r := Success(Sort(hits, HitLe));
    }

    /** Follows the edges of one node, sorted. */
    method Expand(direction: Direction, heuristic: bool, ghost q: Query, ghost seeds: set<string>, ghost roots: seq<string>,
                  maxDepth: nat, current: string, s0: Search)
      returns (s: Search)
      requires Valid() && q == Query(Edges(), direction, heuristic)
      requires Popped(q, roots, s0, current)
      ensures Traced(q, roots, s)
      requires Expanding(nodes, q, seeds, maxDepth, s0, current) && s0.visited[current] < maxDepth
      ensures Expanding(nodes, q, seeds, maxDepth, s, current) && Expanded(q, maxDepth, s.visited, current)
      ensures |s0.visited| <= |s.visited| && |s.visited| + |s0.frontier| == |s0.visited| + |s.frontier|
    {
      var edges := Sort(Adjacent(direction, current), EdgeLe);
      MultisetMembers(edges, Adjacent(direction, current));
      AdjacentEdges(direction, current);
      forall i | 0 <= i < |edges|
        ensures edges[i] in q.edges && direction.Near(edges[i]) == current && direction.Far(edges[i]) in nodes
      {
        assert edges[i] in edges;
      }
      EdgeOrder();
      SortSorts(Adjacent(direction, current), EdgeLe);
      s := FollowAll(nodes, direction, heuristic, q, seeds, roots, maxDepth, current, edges, s0);
      AllFollowed(q, maxDepth, s.visited, current, edges);
    }
  }

  ghost predicate Extends(visited: map<string, nat>, visited': map<string, nat>) {
    forall v | v in visited :: v in visited' && visited'[v] == visited[v]
  }

  ghost predicate FollowedUpTo(q: Query, visited: map<string, nat>, current: string, edges: seq<Edge>, i: nat)
    requires current in visited && i <= |edges|
  {
    forall j | 0 <= j < i :: q.Admits(edges[j]) ==> Followed(q, visited, current, edges[j])
  }

  lemma AllFollowed(q: Query, maxDepth: nat, visited: map<string, nat>, current: string, edges: seq<Edge>)
    requires current in visited && FollowedUpTo(q, visited, current, edges, |edges|) && AllFrom(q, current, edges)
    ensures Expanded(q, maxDepth, visited, current)
  {
  }

  lemma FollowedNext(q: Query, visited: map<string, nat>, visited': map<string, nat>, current: string, edges: seq<Edge>, i: nat)
    requires current in visited && i < |edges| && FollowedUpTo(q, visited, current, edges, i)
    requires Extends(visited, visited') && (q.Admits(edges[i]) ==> Followed(q, visited', current, edges[i]))
    ensures FollowedUpTo(q, visited', current, edges, i + 1)
  {
  }

  /** Follows one edge, unless its resolution or an earlier visit speaks against it. */
  method Follow(ghost nodes: map<string, Node>, direction: Direction, heuristic: bool, ghost q: Query, ghost seeds: set<string>,
                ghost roots: seq<string>, maxDepth: nat, current: string, ghost edges: seq<Edge>, ghost i: nat, e: Edge, s0: Search)
    returns (s: Search)
    requires i < |edges| && edges[i] == e && Busy(q, roots, s0, current, edges, i)
    ensures Busy(q, roots, s, current, edges, i + 1)
    requires q.direction == direction && q.heuristic == heuristic
    requires e in q.edges && direction.Near(e) == current && direction.Far(e) in nodes
    requires Expanding(nodes, q, seeds, maxDepth, s0, current) && s0.visited[current] < maxDepth
    ensures Expanding(nodes, q, seeds, maxDepth, s, current) && s.visited[current] == s0.visited[current]
    ensures q.Admits(e) ==> Followed(q, s.visited, current, e)
    ensures Extends(s0.visited, s.visited)
    ensures |s0.visited| <= |s.visited| && |s.visited| + |s0.frontier| == |s0.visited| + |s.frontier|
  {
    s := s0;
    BusyNext(q, roots, s, current, edges, i);
    if e.resolution.Exact? || heuristic {
      var neighbor := direction.Far(e);
      if !(neighbor in s.visited && s.visited[neighbor] <= s.visited[current] + 1) {
        assert neighbor !in s.visited;
        VisitNew(nodes, q, seeds, maxDepth, s, current, e);
        VisitBusy(nodes, q, seeds, roots, maxDepth, s, current, edges, i);
        s := Visit(s, current, e, neighbor);
        assert Followed(q, s.visited, current, e);
      }
    }
  }

  /** Follows the given edges of one node, in order. */
  method FollowAll(ghost nodes: map<string, Node>, direction: Direction, heuristic: bool, ghost q: Query,
                   ghost seeds: set<string>, ghost roots: seq<string>, maxDepth: nat, current: string, edges: seq<Edge>, s0: Search)
    returns (s: Search)
    requires Popped(q, roots, s0, current) && AllFrom(q, current, edges)
    ensures Traced(q, roots, s)
    requires q.direction == direction && q.heuristic == heuristic
    requires forall i | 0 <= i < |edges| ::
      edges[i] in q.edges && direction.Near(edges[i]) == current && direction.Far(edges[i]) in nodes
    requires Expanding(nodes, q, seeds, maxDepth, s0, current) && s0.visited[current] < maxDepth
    ensures Expanding(nodes, q, seeds, maxDepth, s, current) && s.visited[current] == s0.visited[current]
    ensures FollowedUpTo(q, s.visited, current, edges, |edges|)
    ensures |s0.visited| <= |s.visited| && |s.visited| + |s0.frontier| == |s0.visited| + |s.frontier|
  {
    s := s0;
    PoppedBusy(q, roots, s0, current, edges);
    for i := 0 to |edges|
      invariant Expanding(nodes, q, seeds, maxDepth, s, current) && s.visited[current] == s0.visited[current]
      invariant FollowedUpTo(q, s.visited, current, edges, i)
      invariant Busy(q, roots, s, current, edges, i)
      invariant |s0.visited| <= |s.visited| && |s.visited| + |s0.frontier| == |s0.visited| + |s.frontier|
    {
      ghost var was := s.visited;
      s := Follow(nodes, direction, heuristic, q, seeds, roots, maxDepth, current, edges, i, edges[i], s);
      FollowedNext(q, was, s.visited, current, edges, i);
    }
  }

  /** The state of a traversal between two nodes of the queue. */
  ghost predicate Ready(nodes: map<string, Node>, q: Query, seeds: set<string>, maxDepth: nat, s: Search) {
    && Recorded(nodes, q, seeds, maxDepth, s) && Closed(q, maxDepth, s, {}) && Queued(s)
    && (s.frontier != [] ==> s.frontier[0] in s.visited && Level(s, s.visited[s.frontier[0]]))
  }

  /** The state of a traversal that is busy with `current`. */
  ghost predicate Expanding(nodes: map<string, Node>, q: Query, seeds: set<string>, maxDepth: nat, s: Search, current: string) {
    && Recorded(nodes, q, seeds, maxDepth, s) && Closed(q, maxDepth, s, {current}) && Queued(s)
    && current !in s.frontier && current in s.visited && Level(s, s.visited[current])
  }

  /** A neighbor that was not visited goes to the end of the queue. */
  function Visit(s: Search, current: string, e: Edge, neighbor: string): Search
    requires current in s.visited && current in s.paths
  {
    Search(s.visited[neighbor := s.visited[current] + 1], s.paths[neighbor := s.paths[current] + [e]],
           s.frontier + [neighbor], s.order + [neighbor])
  }

  lemma VisitNew(nodes: map<string, Node>, q: Query, seeds: set<string>, maxDepth: nat, s: Search, current: string, e: Edge)
    requires Expanding(nodes, q, seeds, maxDepth, s, current)
    requires s.visited[current] < maxDepth && q.Admits(e) && q.direction.Near(e) == current
    requires q.direction.Far(e) !in s.visited && q.direction.Far(e) in nodes
    ensures Expanding(nodes, q, seeds, maxDepth, Visit(s, current, e, q.direction.Far(e)), current)
    ensures Extends(s.visited, Visit(s, current, e, q.direction.Far(e)).visited)
  {
    VisitRecorded(nodes, q, seeds, maxDepth, s, current, e);
    VisitClosed(q, maxDepth, s, current, e);
    VisitQueued(s, current, e, q.direction.Far(e));
  }

  lemma VisitRecorded(nodes: map<string, Node>, q: Query, seeds: set<string>, maxDepth: nat, s: Search, current: string, e: Edge)
    requires Recorded(nodes, q, seeds, maxDepth, s) && current in s.visited
    requires s.visited[current] < maxDepth && q.Admits(e) && q.direction.Near(e) == current
    requires q.direction.Far(e) !in s.visited && q.direction.Far(e) in nodes
    ensures Recorded(nodes, q, seeds, maxDepth, Visit(s, current, e, q.direction.Far(e)))
  {
    var neighbor := q.direction.Far(e);
    var path := s.paths[current] + [e];
    assert Joined(q, seeds, s.paths[current], current);
    var from :| from in seeds && q.Chain(from, s.paths[current], current);
    assert path[..|path| - 1] == s.paths[current];
    assert q.Chain(from, path, neighbor);
  }

  lemma VisitClosed(q: Query, maxDepth: nat, s: Search, current: string, e: Edge)
    requires Closed(q, maxDepth, s, {current}) && current in s.visited && current in s.paths
    requires q.direction.Far(e) !in s.visited
    ensures Closed(q, maxDepth, Visit(s, current, e, q.direction.Far(e)), {current})
  {
    var neighbor := q.direction.Far(e);
    var s' := Visit(s, current, e, neighbor);
    forall v | v in s'.visited && v !in s'.frontier && v != current
      ensures Expanded(q, maxDepth, s'.visited, v)
    {
      assert s'.frontier[|s.frontier|] == neighbor;
      assert v !in s.frontier;
      ExpandedMonotone(q, maxDepth, s.visited, v, neighbor, s.visited[current] + 1);
    }
  }

  lemma VisitQueued(s: Search, current: string, e: Edge, neighbor: string)
    requires Queued(s) && current !in s.frontier && current in s.visited && current in s.paths
    requires Level(s, s.visited[current]) && neighbor !in s.visited
    ensures var s' := Visit(s, current, e, neighbor);
            Queued(s') && current !in s'.frontier && Level(s', s.visited[current])
  {
    var s' := Visit(s, current, e, neighbor);
    assert s'.frontier[|s.frontier|] == neighbor;
    forall v | v in s'.visited && v !in s'.frontier
      ensures s'.visited[v] <= s.visited[current]
    {
      assert v !in s.frontier;
    }
  }

  /** Visiting a node lengthens the queue by one and uses up one of `n` nodes. */
  ghost function Measure(n: nat, s: Search): nat {
    if |s.visited| <= n then 2 * (n - |s.visited|) + |s.frontier| else 0
  }

  lemma MeasureDrops(n: nat, s0: Search, s: Search)
    requires |s0.visited| <= |s.visited| <= n && s0.frontier != []
    requires |s.visited| + |s0.frontier| - 1 == |s0.visited| + |s.frontier|
    ensures Measure(n, s) < Measure(n, s0)
  {
  }

  /** tuple(dict.fromkeys(...)) */
  function Distinct(s: seq<string>): (r: seq<string>)
    ensures forall x :: x in r <==> x in s
    ensures forall i, j | 0 <= i < j < |r| :: r[i] != r[j]
  {
    if s == [] then []
    else
      var init := Distinct(s[..|s| - 1]);
      assert s == s[..|s| - 1] + [s[|s| - 1]];
      if s[|s| - 1] in init then init else init + [s[|s| - 1]]
  }

  /** Of two seeds the one that was named first stays first. */
  lemma {:induction false} DistinctOrder(s: seq<string>, x: string, y: string)
    requires x in s && y in s
    ensures IndexOf(Distinct(s), x) < IndexOf(Distinct(s), y) <==> IndexOf(s, x) < IndexOf(s, y)
  {
    var init, last := s[..|s| - 1], s[|s| - 1];
    assert s == init + [last];
    IndexKept(init, last, x);
    IndexKept(init, last, y);
    IndexKept(Distinct(init), last, x);
    IndexKept(Distinct(init), last, y);
    if x in init && y in init {
      DistinctOrder(init, x, y);
    }
  }

  lemma ForemostGiven(q: Query, seedIds: seq<string>, hits: seq<Hit>)
    requires Foremost(q, Distinct(seedIds), hits)
    ensures Foremost(q, seedIds, hits)
  {
    assert Elements(Distinct(seedIds)) == Elements(seedIds);
    forall h, path | h in hits && Walk(q.edges, q.direction, q.heuristic, Elements(seedIds), path, h.node.id) && |path| == |h.path|
      ensures NoLater(seedIds, Origin(q.direction, h.path, h.node.id), h.path, Origin(q.direction, path, h.node.id), path)
    {
      var x, y := Origin(q.direction, h.path, h.node.id), Origin(q.direction, path, h.node.id);
      assert NoLater(Distinct(seedIds), x, h.path, y, path);
      if x in seedIds && y in seedIds {
        DistinctOrder(seedIds, x, y);
      }
    }
  }

  lemma SeedsRecorded(nodes: map<string, Node>, q: Query, seeds: seq<string>, maxDepth: nat)
    requires forall id | id in seeds :: id in nodes
    requires forall i, j | 0 <= i < j < |seeds| :: seeds[i] != seeds[j]
    ensures var s := Start(seeds);
            Ready(nodes, q, Elements(seeds), maxDepth, s) && |s.visited| <= |nodes|
  {
    SubsetSize((map id | id in seeds :: 0).Keys, nodes.Keys);
    forall id | id in seeds
      ensures Joined(q, Elements(seeds), [], id)
    {
      assert q.Chain(id, [], id);
    }
  }

  /** Taking the first node off the queue. */
  lemma PopExpanding(nodes: map<string, Node>, q: Query, seeds: set<string>, maxDepth: nat, s: Search)
    requires Ready(nodes, q, seeds, maxDepth, s) && s.frontier != []
    ensures Expanding(nodes, q, seeds, maxDepth, s.(frontier := s.frontier[1..]), s.frontier[0])
  {
    var current := s.frontier[0];
    var rest := s.frontier[1..];
    assert s.frontier == [current] + rest;
    assert forall v :: v in s.frontier <==> v == current || v in rest;
  }

  /** After a node has been expanded the next one in the queue sets the level. */
  lemma NextLevel(nodes: map<string, Node>, q: Query, seeds: set<string>, maxDepth: nat, s: Search, current: string)
    requires Expanding(nodes, q, seeds, maxDepth, s, current)
    requires s.visited[current] < maxDepth ==> Expanded(q, maxDepth, s.visited, current)
    ensures Ready(nodes, q, seeds, maxDepth, s) && |s.visited| <= |nodes|
  {
    assert Expanded(q, maxDepth, s.visited, current);
    SubsetSize(s.visited.Keys, nodes.Keys);
  }

  // ---------- The answer ----------

  /** The hit of a visited node. */
  function HitOf(nodes: map<string, Node>, s: Search, id: string): Hit
    requires id in nodes && id in s.visited && id in s.paths
  {
    Hit(nodes[id], s.visited[id], s.paths[id])
  }

  /** The hits of all visited nodes except the seeds. */
  method Collect(nodes: map<string, Node>, s: Search, seeds: seq<string>) returns (hits: seq<Hit>)
    requires s.visited.Keys == s.paths.Keys && s.visited.Keys <= nodes.Keys
    requires forall id | id in nodes :: nodes[id].id == id
    ensures forall i, j | 0 <= i < j < |hits| :: hits[i].node.id != hits[j].node.id
    ensures forall h :: h in hits <==> h.node.id in s.visited && h.node.id !in seeds && h == HitOf(nodes, s, h.node.id)
  {
    hits := [];
    var pending := set id | id in s.visited && id !in seeds;
    ghost var all := pending;
    while pending != {}
      invariant pending <= all
      invariant forall i, j | 0 <= i < j < |hits| :: hits[i].node.id != hits[j].node.id
      invariant forall h :: h in hits <==> h.node.id in all && h.node.id !in pending && h == HitOf(nodes, s, h.node.id)
    {
      var id :| id in pending;
      assert forall i | 0 <= i < |hits| :: hits[i] in hits && hits[i].node.id != id;
      hits := hits + [HitOf(nodes, s, id)];
      pending := pending - {id};
    }
  }

  lemma CollectAnswers(nodes: map<string, Node>, q: Query, seeds: seq<string>, maxDepth: nat, s: Search, hits: seq<Hit>, sorted: seq<Hit>)
    requires Recorded(nodes, q, Elements(seeds), maxDepth, s)
    requires forall v, d: nat | d <= maxDepth && q.Reaches(Elements(seeds), v, d) :: v in s.visited && s.visited[v] <= d
    requires forall v | v in s.visited :: q.Distance(Elements(seeds), v, s.visited[v])
    requires forall id | id in nodes :: nodes[id].id == id
    requires forall i, j | 0 <= i < j < |hits| :: hits[i].node.id != hits[j].node.id
    requires forall h :: h in hits <==> h.node.id in s.visited && h.node.id !in seeds && h == HitOf(nodes, s, h.node.id)
    requires sorted == Sort(hits, HitLe)
    ensures Answers(nodes, q, Elements(seeds), maxDepth, sorted)
  {
    HitOrder();
    SortSorts(hits, HitLe);
    MultisetMembers(sorted, hits);
    DistinctMultiset(hits, sorted);
    forall h | h in sorted
      ensures AnswersHit(nodes, q, Elements(seeds), maxDepth, h)
    {
      assert h in hits;
      assert Joined(q, Elements(seeds), h.path, h.node.id);
    }
    forall id, d: nat | id !in Elements(seeds) && d <= maxDepth && q.Reaches(Elements(seeds), id, d)
      ensures exists h | h in sorted :: h.node.id == id
    {
      assert id in s.visited;
      assert HitOf(nodes, s, id) in hits;
    }
  }

  /** Reordering hits with different ids keeps the ids different. */
  lemma DistinctMultiset(a: seq<Hit>, b: seq<Hit>)
    requires multiset(a) == multiset(b)
    requires forall i, j | 0 <= i < j < |a| :: a[i].node.id != a[j].node.id
    ensures forall i, j | 0 <= i < j < |b| :: b[i].node.id != b[j].node.id
  {
    forall i, j | 0 <= i < j < |b|
      ensures b[i].node.id != b[j].node.id
    {
      if b[i].node.id == b[j].node.id {
        MultisetMembers(a, b);
        assert b[i] in b && b[j] in b;
        assert b[i] == b[j];
        Twice(b, i, j);
        Once(a, b[i]);
      }
    }
  }

  lemma Twice(s: seq<Hit>, i: nat, j: nat)
    requires i < j < |s| && s[i] == s[j]
    ensures multiset(s)[s[i]] >= 2
  {
    assert s == s[..j] + s[j..];
    assert s[..j][i] in multiset(s[..j]) && s[j..][0] in multiset(s[j..]);
  }

  lemma {:induction false} Once(s: seq<Hit>, h: Hit)
    requires forall i, j | 0 <= i < j < |s| :: s[i].node.id != s[j].node.id
    ensures multiset(s)[h] <= 1
  {
    if s != [] {
      assert s == [s[0]] + s[1..];
      Once(s[1..], h);
      if h == s[0] {
        assert h !in s[1..];
        assert h !in multiset(s[1..]);
      }
    }
  }

  // ---------- Exact edges ----------

  ghost function ExactOnes(edges: set<Edge>): set<Edge> {
    set e | e in edges && e.resolution == Exact
  }

  /** An exact query answers as a heuristic one does on the graph of its exact edges. */
  lemma ExactAlone(nodes: map<string, Node>, edges: set<Edge>, direction: Direction, seeds: set<string>, maxDepth: nat,
                   a: seq<Hit>, b: seq<Hit>)
    requires Answers(nodes, Query(edges, direction, false), seeds, maxDepth, a)
    requires Answers(nodes, Query(ExactOnes(edges), direction, true), seeds, maxDepth, b)
    ensures |a| == |b| && forall i | 0 <= i < |a| :: a[i].node == b[i].node && a[i].depth == b[i].depth
  {
    var p, q := Query(edges, direction, false), Query(ExactOnes(edges), direction, true);
    forall from, path, to
      ensures p.Chain(from, path, to) <==> q.Chain(from, path, to)
    {
      SameChain(p, q, from, path, to);
    }
    SameReach(p, q, seeds);
    forall h | h in b
      ensures AnswersHit(nodes, p, seeds, maxDepth, h)
    {
      assert AnswersHit(nodes, q, seeds, maxDepth, h);
    }
    forall id, d: nat | id !in seeds && d <= maxDepth && p.Reaches(seeds, id, d)
      ensures exists h | h in b :: h.node.id == id
    {
      assert q.Reaches(seeds, id, d);
    }
    AnswersAgree(nodes, p, seeds, maxDepth, a, b);
  }

  lemma SameReach(p: Query, q: Query, seeds: set<string>)
    requires forall from, path, to :: p.Chain(from, path, to) <==> q.Chain(from, path, to)
    ensures forall to, length: nat :: p.Reaches(seeds, to, length) <==> q.Reaches(seeds, to, length)
    ensures forall to, d: nat :: p.Distance(seeds, to, d) <==> q.Distance(seeds, to, d)
  {
  }

  lemma {:induction false} SameChain(p: Query, q: Query, from: string, path: seq<Edge>, to: string)
    requires p.direction == q.direction && forall e :: p.Admits(e) <==> q.Admits(e)
    ensures p.Chain(from, path, to) <==> q.Chain(from, path, to)
    decreases |path|
  {
    if path != [] {
      var last := path[|path| - 1];
      SameChain(p, q, from, path[..|path| - 1], p.direction.Near(last));
    }
  }

  // ---------- The answer does not depend on insertion order ----------

  /** Two answers to one question name the same nodes with the same depths in the
      same order, whatever order nodes, edges and seeds were added in. */
  lemma AnswersAgree(nodes: map<string, Node>, q: Query, seeds: set<string>, maxDepth: nat, a: seq<Hit>, b: seq<Hit>)
    requires Answers(nodes, q, seeds, maxDepth, a) && Answers(nodes, q, seeds, maxDepth, b)
    ensures |a| == |b| && forall i | 0 <= i < |a| :: a[i].node == b[i].node && a[i].depth == b[i].depth
  {
    forall h | h in a
      ensures Has(b, h)
    {
      AnswersInclude(nodes, q, seeds, maxDepth, h, b);
    }
    forall h | h in b
      ensures Has(a, h)
    {
      AnswersInclude(nodes, q, seeds, maxDepth, h, a);
    }
    SortedAgree(a, b);
  }

  /** Nor does the evidence: two answers for the seeds in one order reach each node
      over edges with the same ends and relations. */
  lemma PathsAgree(nodes: map<string, Node>, q: Query, seeds: seq<string>, maxDepth: nat, a: seq<Hit>, b: seq<Hit>, i: nat)
    requires Answers(nodes, q, Elements(seeds), maxDepth, a) && Foremost(q, seeds, a)
    requires Answers(nodes, q, Elements(seeds), maxDepth, b) && Foremost(q, seeds, b)
    requires i < |a|
    ensures i < |b| && a[i].node == b[i].node && SameKeys(a[i].path, b[i].path)
  {
    AnswersAgree(nodes, q, Elements(seeds), maxDepth, a, b);
    assert a[i] in a && b[i] in b;
    HitWalks(nodes, q, Elements(seeds), maxDepth, a[i]);
    HitWalks(nodes, q, Elements(seeds), maxDepth, b[i]);
    var x, y := Origin(q.direction, a[i].path, a[i].node.id), Origin(q.direction, b[i].path, b[i].node.id);
    NoLaterBothWays(seeds, x, a[i].path, y, b[i].path);
  }

  ghost predicate Has(hits: seq<Hit>, h: Hit) {
    exists i | 0 <= i < |hits| :: hits[i].node == h.node && hits[i].depth == h.depth
  }

  lemma AnswersInclude(nodes: map<string, Node>, q: Query, seeds: set<string>, maxDepth: nat, h: Hit, hits: seq<Hit>)
    requires AnswersHit(nodes, q, seeds, maxDepth, h) && Answers(nodes, q, seeds, maxDepth, hits)
    ensures Has(hits, h)
  {
    assert q.Reaches(seeds, h.node.id, h.depth);
    var other :| other in hits && other.node.id == h.node.id;
    assert AnswersHit(nodes, q, seeds, maxDepth, other);
    var i :| 0 <= i < |hits| && hits[i] == other;
  }

  /** Sorted lists of hits with different ids and the same members agree. */
  lemma {:induction false} SortedAgree(a: seq<Hit>, b: seq<Hit>)
    requires SortedBy(a, HitLe) && SortedBy(b, HitLe)
    requires forall i, j | 0 <= i < j < |a| :: a[i].node.id != a[j].node.id
    requires forall i, j | 0 <= i < j < |b| :: b[i].node.id != b[j].node.id
    requires (forall h | h in a :: Has(b, h)) && (forall h | h in b :: Has(a, h))
    ensures |a| == |b| && forall i | 0 <= i < |a| :: a[i].node == b[i].node && a[i].depth == b[i].depth
    decreases |a|
  {
    HitOrder();
    if a == [] {
      assert b != [] ==> b[0] in b && Has(a, b[0]);
    } else {
      assert b != [] by {
        assert Has(b, a[0]);
      }
      HeadsAgree(a, b);
      TailHas(a, b);
      TailHas(b, a);
      TailSorted(a);
      TailSorted(b);
      SortedAgree(a[1..], b[1..]);
      forall i | 0 < i < |a|
        ensures a[i].node == b[i].node && a[i].depth == b[i].depth
      {
        assert a[i] == a[1..][i - 1] && b[i] == b[1..][i - 1];
      }
    }
  }

  lemma TailSorted(s: seq<Hit>)
    requires s != [] && SortedBy(s, HitLe) && forall i, j | 0 <= i < j < |s| :: s[i].node.id != s[j].node.id
    ensures SortedBy(s[1..], HitLe) && forall i, j | 0 <= i < j < |s[1..]| :: s[1..][i].node.id != s[1..][j].node.id
  {
  }

  lemma LeastLe(s: seq<Hit>, h: Hit)
    requires s != [] && SortedBy(s, HitLe) && Has(s, h)
    ensures HitLe(s[0], h)
  {
    HitOrder();
    var i :| 0 <= i < |s| && s[i].node == h.node && s[i].depth == h.depth;
    assert HitLe(s[0], s[i]);
  }

  lemma HeadsAgree(a: seq<Hit>, b: seq<Hit>)
    requires a != [] && b != [] && SortedBy(a, HitLe) && SortedBy(b, HitLe) && Has(b, a[0]) && Has(a, b[0])
    requires forall i, j | 0 <= i < j < |b| :: b[i].node.id != b[j].node.id
    ensures a[0].node == b[0].node && a[0].depth == b[0].depth
  {
    HitOrder();
    LeastLe(a, b[0]);
    LeastLe(b, a[0]);
  }

  lemma TailHas(a: seq<Hit>, b: seq<Hit>)
    requires a != [] && b != [] && a[0].node.id == b[0].node.id
    requires forall i, j | 0 <= i < j < |a| :: a[i].node.id != a[j].node.id
    requires forall h | h in a :: Has(b, h)
    ensures forall h | h in a[1..] :: Has(b[1..], h)
  {
    forall h | h in a[1..]
      ensures Has(b[1..], h)
    {
      assert h in a && Has(b, h);
      var i :| 0 <= i < |b| && b[i].node == h.node && b[i].depth == h.depth;
      var k :| 1 <= k < |a| && a[k] == h;
      assert b[1..][i - 1] == b[i];
    }
  }
}
