/** `bfs_path` (Main.py lines 58-73): breadth-first search over the adjacency
    map with a FIFO queue of (node, path-so-far) entries and a visited set
    that the start node is never put into. */
module PathFinder {
  import opened Wrappers
  import opened Topology

  /** One queue element: a node and the path that reached it. */
  datatype Entry = Entry(node: Name, path: seq<Name>)

  /** `graph[node]` raised: a dequeued node is not a key of the graph. */
  datatype SearchError = MissingNode(node: Name)

  /** A non-empty sequence of names each adjacent to the next. */
  predicate IsWalk(g: Graph, w: seq<Name>) {
    |w| >= 1 && forall i :: 0 <= i < |w| - 1 ==> Adjacent(g, w[i], w[i + 1])
  }

  predicate WalkBetween(g: Graph, w: seq<Name>, s: Name, t: Name) {
    IsWalk(g, w) && w[0] == s && w[|w| - 1] == t
  }

  /** No walk from `s` to `t` has fewer than `n` names (fewer than `n - 1` hops). */
  ghost predicate NoShorterWalk(g: Graph, s: Name, t: Name, n: nat) {
    forall w :: WalkBetween(g, w, s, t) ==> n <= |w|
  }

  ghost predicate Reachable(g: Graph, s: Name, t: Name) {
    exists w :: WalkBetween(g, w, s, t)
  }

  /** Every name that occurs in the graph, as a key or as a neighbour. */
  function Universe(g: Graph): set<Name> {
    g.Keys + set a, b | a in g && b in g[a] :: b
  }

  function Nodes(q: seq<Entry>): seq<Name> {
    seq(|q|, i requires 0 <= i < |q| => q[i].node)
  }

  /** Position of the first occurrence of `x` in `s`, or `|s|` if none. */
  function FirstIndex(s: seq<Name>, x: Name): (k: nat)
    ensures k <= |s| && (k < |s| <==> x in s)
    ensures k < |s| ==> s[k] == x
    ensures forall j :: 0 <= j < k ==> s[j] != x
    decreases |s|
  {
    if |s| == 0 then 0
    else if s[0] == x then 0
    else 1 + FirstIndex(s[1..], x)
  }

  /** The entries of `q` come in the order their names first occur in `nbrs`. */
  predicate FirstSeenOrder(nbrs: seq<Name>, q: seq<Entry>) {
    forall i, j :: 0 <= i < j < |q| ==> FirstIndex(nbrs, q[i].node) < FirstIndex(nbrs, q[j].node)
  }

  /** The inner `for neighbor in graph[node]` loop: each neighbour not yet
      visited is marked visited and enqueued with `path + [neighbor]`. It
      returns the new visited set and the entries appended to the queue. */
  function Expand(nbrs: seq<Name>, path: seq<Name>, visited: set<Name>): (r: (set<Name>, seq<Entry>))
    ensures r.0 == visited + set x | x in nbrs
    ensures forall i :: 0 <= i < |r.1| ==>
      r.1[i].node in nbrs && r.1[i].node !in visited && r.1[i].path == path + [r.1[i].node]
    ensures forall v :: multiset(Nodes(r.1))[v] == if v in r.0 && v !in visited then 1 else 0
    decreases |nbrs|
  {
    if |nbrs| == 0 then (visited, [])
    else
      ElementsCons(nbrs);
      if nbrs[0] in visited then Expand(nbrs[1..], path, visited)
      else
        var r := Expand(nbrs[1..], path, visited + {nbrs[0]});
        var e := Entry(nbrs[0], path + [nbrs[0]]);
        ExpandAdds(nbrs, path, visited, r.0, r.1);
        (r.0, [e] + r.1)
  }

  /** The neighbour loop enqueues in the order the neighbours are listed:
      together with the counts of `Expand`, this fixes the queue extension
      as the unvisited neighbours at their first occurrence, in list order. */
  lemma {:induction false} ExpandOrder(nbrs: seq<Name>, path: seq<Name>, visited: set<Name>)
    ensures FirstSeenOrder(nbrs, Expand(nbrs, path, visited).1)
    decreases |nbrs|
  {
    if |nbrs| > 0 {
      if nbrs[0] in visited {
        ExpandOrder(nbrs[1..], path, visited);
        OrderSkip(nbrs, Expand(nbrs[1..], path, visited).1);
      } else {
        var r := Expand(nbrs[1..], path, visited + {nbrs[0]});
        ExpandOrder(nbrs[1..], path, visited + {nbrs[0]});
        OrderCons(nbrs, Entry(nbrs[0], path + [nbrs[0]]), r.1);
      }
    }
  }

  /** Entries ordered by first occurrence in `nbrs[1..]`, none of them for
      `nbrs[0]`, are ordered by first occurrence in `nbrs`. */
  lemma OrderSkip(nbrs: seq<Name>, q: seq<Entry>)
    requires |nbrs| > 0 && FirstSeenOrder(nbrs[1..], q)
    requires forall i :: 0 <= i < |q| ==> q[i].node != nbrs[0]
    ensures FirstSeenOrder(nbrs, q)
  {
    forall i | 0 <= i < |q|
      ensures FirstIndex(nbrs, q[i].node) == 1 + FirstIndex(nbrs[1..], q[i].node)
    {
    }
  }

  /** Enqueuing `nbrs[0]` in front keeps the first-occurrence order. */
  lemma OrderCons(nbrs: seq<Name>, e: Entry, q: seq<Entry>)
    requires |nbrs| > 0 && e.node == nbrs[0] && FirstSeenOrder(nbrs[1..], q)
    requires forall i :: 0 <= i < |q| ==> q[i].node != nbrs[0]
    ensures FirstSeenOrder(nbrs, [e] + q)
  {
    OrderSkip(nbrs, q);
    var r := [e] + q;
    assert forall i :: 1 <= i < |r| ==> r[i] == q[i - 1];
    forall j | 1 <= j < |r|
      ensures 0 < FirstIndex(nbrs, r[j].node)
    {
    }
  }

  /** Marking the first neighbour visited and enqueuing it in front of what
      the rest of the loop enqueues keeps the three properties of `Expand`. */
  lemma ExpandAdds(nbrs: seq<Name>, path: seq<Name>, visited: set<Name>, seen: set<Name>, q: seq<Entry>)
    requires |nbrs| > 0 && nbrs[0] !in visited
    requires seen == visited + {nbrs[0]} + set x | x in nbrs[1..]
    requires forall i :: 0 <= i < |q| ==>
      q[i].node in nbrs[1..] && q[i].node !in visited + {nbrs[0]} && q[i].path == path + [q[i].node]
    requires forall v :: multiset(Nodes(q))[v] == if v in seen && v !in visited + {nbrs[0]} then 1 else 0
    ensures seen == visited + set x | x in nbrs
    ensures var r := [Entry(nbrs[0], path + [nbrs[0]])] + q;
      forall i :: 0 <= i < |r| ==> r[i].node in nbrs && r[i].node !in visited && r[i].path == path + [r[i].node]
    ensures var r := [Entry(nbrs[0], path + [nbrs[0]])] + q;
      forall v :: multiset(Nodes(r))[v] == if v in seen && v !in visited then 1 else 0
  {
    ElementsCons(nbrs);
    var e := Entry(nbrs[0], path + [nbrs[0]]);
    NodesCons(e, q);
    var r := [e] + q;
    assert forall i :: 1 <= i < |r| ==> r[i] == q[i - 1];
  }

  lemma ElementsCons(s: seq<Name>)
    requires |s| > 0
    ensures (set x | x in s) == (set x | x in s[1..]) + {s[0]}
  {
  }

  lemma NodesCons(e: Entry, q: seq<Entry>)
    ensures Nodes([e] + q) == [e.node] + Nodes(q)
  {
  }

  lemma NodesAppend(p: seq<Entry>, q: seq<Entry>)
    ensures Nodes(p + q) == Nodes(p) + Nodes(q)
  {
  }

  /** Names whose neighbours have all been marked visited, none of them the goal. */
  ghost predicate ExpandedClosed(g: Graph, expanded: set<Name>, visited: set<Name>, goal: Name) {
    && (forall x :: x in expanded ==> x in g && x != goal)
    && (forall x, y :: x in expanded && Adjacent(g, x, y) ==> y in visited)
  }

  /** Every walk from `start` with fewer than `n` names ends at an expanded name. */
  ghost predicate ShorterWalksExpanded(g: Graph, start: Name, expanded: set<Name>, n: nat) {
    forall w :: IsWalk(g, w) && w[0] == start && |w| < n ==> w[|w| - 1] in expanded
  }

  lemma WalkPrefix(g: Graph, w: seq<Name>, k: nat)
    requires IsWalk(g, w) && 1 <= k <= |w|
    ensures IsWalk(g, w[..k])
  {
    forall i | 0 <= i < k - 1
      ensures Adjacent(g, w[..k][i], w[..k][i + 1])
    {
      assert w[..k][i] == w[i] && w[..k][i + 1] == w[i + 1];
    }
  }

  /** If every walk shorter than `n` ends at an expanded name, every walk of at
      most `n` names ends at `start` or at a visited name. */
  lemma NextLayerVisited(g: Graph, start: Name, goal: Name, expanded: set<Name>, visited: set<Name>, n: nat, w: seq<Name>)
    requires ExpandedClosed(g, expanded, visited, goal)
    requires ShorterWalksExpanded(g, start, expanded, n)
    requires IsWalk(g, w) && w[0] == start && |w| <= n
    ensures w[|w| - 1] == start || w[|w| - 1] in visited
  {
    if |w| > 1 {
      var pre := w[..|w| - 1];
      WalkPrefix(g, w, |w| - 1);
      assert pre[|pre| - 1] in expanded;
      assert Adjacent(g, w[|w| - 2], w[|w| - 1]);
    }
  }

  /** A walk that starts inside a set closed under adjacency stays inside it. */
  lemma {:induction false} WalkStaysInside(g: Graph, inside: set<Name>, w: seq<Name>)
    requires forall x, y :: x in inside && Adjacent(g, x, y) ==> y in inside
    requires IsWalk(g, w) && w[0] in inside
    ensures w[|w| - 1] in inside
    decreases |w|
  {
    if |w| > 1 {
      WalkPrefix(g, w, |w| - 1);
      WalkStaysInside(g, inside, w[..|w| - 1]);
      assert Adjacent(g, w[|w| - 2], w[|w| - 1]);
    }
  }

  /** Each entry's path is a walk from `start` to the entry's node. */
  ghost predicate QueueWalks(g: Graph, start: Name, queue: seq<Entry>) {
    forall i :: 0 <= i < |queue| ==> WalkBetween(g, queue[i].path, start, queue[i].node)
  }

  /** Path lengths never decrease along the queue and span at most two layers. */
  ghost predicate Layered(queue: seq<Entry>) {
    forall i, j :: 0 <= i <= j < |queue| ==> |queue[i].path| <= |queue[j].path| <= |queue[i].path| + 1
  }

  /** Entries other than a re-enqueued `start` carry shortest walks. */
  ghost predicate QueueShortest(g: Graph, start: Name, queue: seq<Entry>) {
    forall i :: 0 <= i < |queue| && queue[i].node != start ==>
      NoShorterWalk(g, start, queue[i].node, |queue[i].path|)
  }

  /** Every name ever enqueued has been expanded or is still waiting. */
  ghost predicate Tracked(start: Name, queue: seq<Entry>, visited: set<Name>, expanded: set<Name>) {
    && (forall v :: v in visited || v == start ==> v in expanded || v in Nodes(queue))
    && (start in expanded || queue == [Entry(start, [start])])
  }

  /** A name other than `start` is enqueued once, when it is marked visited. */
  ghost predicate EnqueueCounts(start: Name, visited: set<Name>, enqueued: seq<Name>) {
    && (forall v :: v != start ==> multiset(enqueued)[v] == if v in visited then 1 else 0)
    && multiset(enqueued)[start] == if start in visited then 2 else 1
  }

  /** In a closed graph searched from one of its names, every queued name is a key. */
  ghost predicate QueueInGraph(g: Graph, start: Name, queue: seq<Entry>) {
    Closed(g) && start in g ==> forall i :: 0 <= i < |queue| ==> queue[i].node in g
  }

  /** The loop invariant of `bfs_path`, over the queue, the visited set, the
      ghost set of names already dequeued and expanded, and the ghost log of
      enqueued names. */
  ghost predicate SearchInv(g: Graph, start: Name, goal: Name, queue: seq<Entry>, visited: set<Name>,
                            expanded: set<Name>, enqueued: seq<Name>)
  {
    && visited <= Universe(g)
    && QueueWalks(g, start, queue)
    && Layered(queue)
    && QueueShortest(g, start, queue)
    && ExpandedClosed(g, expanded, visited, goal)
    && Tracked(start, queue, visited, expanded)
    && (start == goal ==> queue == [Entry(start, [start])])
    && (|queue| > 0 ==> ShorterWalksExpanded(g, start, expanded, |queue[0].path|))
    && QueueInGraph(g, start, queue)
    && EnqueueCounts(start, visited, enqueued)
  }

  /** The entries appended while expanding the front carry shortest walks. */
  lemma AddedAreShortest(g: Graph, start: Name, goal: Name, e: Entry, visited: set<Name>, expanded: set<Name>)
    requires ExpandedClosed(g, expanded, visited, goal)
    requires ShorterWalksExpanded(g, start, expanded, |e.path|)
    requires e.node in g
    ensures var added := Expand(g[e.node], e.path, visited).1;
      forall i :: 0 <= i < |added| && added[i].node != start ==>
        NoShorterWalk(g, start, added[i].node, |added[i].path|)
  {
    var added := Expand(g[e.node], e.path, visited).1;
    forall i, w | 0 <= i < |added| && added[i].node != start && WalkBetween(g, w, start, added[i].node)
      ensures |added[i].path| <= |w|
    {
      if |w| <= |e.path| {
        NextLayerVisited(g, start, goal, expanded, visited, |e.path|, w);
      }
    }
  }

  /** A walk can be no shorter than the path of a queued entry for its last name. */
  lemma QueuedNotShorter(g: Graph, start: Name, queue: seq<Entry>, w: seq<Name>)
    requires QueueShortest(g, start, queue)
    requires IsWalk(g, w) && w[0] == start
    ensures w[|w| - 1] != start && w[|w| - 1] in Nodes(queue) ==>
      exists i :: 0 <= i < |queue| && |queue[i].path| <= |w|
  {
    var last := w[|w| - 1];
    if last != start && last in Nodes(queue) {
      var i :| 0 <= i < |queue| && Nodes(queue)[i] == last;
      assert WalkBetween(g, w, start, queue[i].node);
    }
  }

  /** When the front moves to the next layer, every walk one name longer than
      the old front's path ends at an expanded name. */
  lemma LayerCompleted(g: Graph, start: Name, goal: Name, queue: seq<Entry>, visited: set<Name>,
                       expanded: set<Name>, added: seq<Entry>)
    requires |queue| > 0
    requires QueueShortest(g, start, queue) && Layered(queue)
    requires ExpandedClosed(g, expanded, visited, goal) && Tracked(start, queue, visited, expanded)
    requires ShorterWalksExpanded(g, start, expanded, |queue[0].path|)
    requires forall i :: 0 <= i < |added| ==> |added[i].path| == |queue[0].path| + 1
    requires |queue[1..] + added| > 0 && |(queue[1..] + added)[0].path| == |queue[0].path| + 1
    ensures ShorterWalksExpanded(g, start, expanded + {queue[0].node}, |queue[0].path| + 1)
  {
    var e := queue[0];
    var rest := queue[1..];
    var n := |e.path|;
    assert Nodes(queue) == [e.node] + Nodes(rest);
    assert forall i :: 0 <= i < |rest| ==> n + 1 <= |rest[i].path|;
    assert QueueShortest(g, start, rest) by {
      assert forall i :: 0 <= i < |rest| ==> rest[i] == queue[i + 1];
    }
    forall w | IsWalk(g, w) && w[0] == start && |w| < n + 1
      ensures w[|w| - 1] in expanded + {e.node}
    {
      if |w| == n {
        LayerWalkExpanded(g, start, goal, e, rest, visited, expanded, w);
      }
    }
  }

  /** A walk as long as the front's path ends at an expanded name or at the
      front itself: the names still waiting behind the front are farther away. */
  lemma LayerWalkExpanded(g: Graph, start: Name, goal: Name, e: Entry, rest: seq<Entry>, visited: set<Name>,
                          expanded: set<Name>, w: seq<Name>)
    requires QueueShortest(g, start, rest)
    requires ExpandedClosed(g, expanded, visited, goal)
    requires ShorterWalksExpanded(g, start, expanded, |e.path|)
    requires forall v :: v in visited || v == start ==> v in expanded || v in [e.node] + Nodes(rest)
    requires start in expanded || e.node == start
    requires forall i :: 0 <= i < |rest| ==> |e.path| + 1 <= |rest[i].path|
    requires IsWalk(g, w) && w[0] == start && |w| == |e.path|
    ensures w[|w| - 1] in expanded + {e.node}
  {
    NextLayerVisited(g, start, goal, expanded, visited, |e.path|, w);
    QueuedNotShorter(g, start, rest, w);
  }

  lemma CountsAfterStep(start: Name, visited: set<Name>, enqueued: seq<Name>, visited': set<Name>, added: seq<Entry>)
    requires EnqueueCounts(start, visited, enqueued)
    requires visited <= visited'
    requires forall v :: multiset(Nodes(added))[v] == if v in visited' && v !in visited then 1 else 0
    ensures EnqueueCounts(start, visited', enqueued + Nodes(added))
  {
  }

  /** The queue after one iteration still holds walks, layered. */
  lemma NextQueueShape(g: Graph, start: Name, queue: seq<Entry>, added: seq<Entry>)
    requires |queue| > 0 && QueueWalks(g, start, queue) && Layered(queue)
    requires forall i :: 0 <= i < |added| ==>
      Adjacent(g, queue[0].node, added[i].node) && added[i].path == queue[0].path + [added[i].node]
    ensures QueueWalks(g, start, queue[1..] + added) && Layered(queue[1..] + added)
  {
    var next := queue[1..] + added;
    forall i | 0 <= i < |next|
      ensures WalkBetween(g, next[i].path, start, next[i].node)
    {
      if i >= |queue| - 1 {
        var a := added[i - (|queue| - 1)];
        assert next[i] == a;
        assert WalkBetween(g, queue[0].path, start, queue[0].node);
      } else {
        assert next[i] == queue[i + 1];
      }
    }
    forall i, j | 0 <= i <= j < |next|
      ensures |next[i].path| <= |next[j].path| <= |next[i].path| + 1
    {
      assert forall k :: 0 <= k < |next| ==> |queue[0].path| <= |next[k].path| <= |queue[0].path| + 1;
      if j < |queue| - 1 {
        assert next[i] == queue[i + 1] && next[j] == queue[j + 1];
      } else if i >= |queue| - 1 {
        assert |next[i].path| == |next[j].path|;
      }
    }
  }

  lemma NextQueueShortest(g: Graph, start: Name, queue: seq<Entry>, added: seq<Entry>)
    requires |queue| > 0 && QueueShortest(g, start, queue)
    requires forall i :: 0 <= i < |added| && added[i].node != start ==>
      NoShorterWalk(g, start, added[i].node, |added[i].path|)
    ensures QueueShortest(g, start, queue[1..] + added)
  {
    var next := queue[1..] + added;
    forall i | 0 <= i < |next| && next[i].node != start
      ensures NoShorterWalk(g, start, next[i].node, |next[i].path|)
    {
      if i >= |queue| - 1 {
        assert next[i] == added[i - (|queue| - 1)];
      } else {
        assert next[i] == queue[i + 1];
      }
    }
  }

  lemma NextTracked(start: Name, queue: seq<Entry>, visited: set<Name>, expanded: set<Name>,
                    visited': set<Name>, added: seq<Entry>)
    requires |queue| > 0 && Tracked(start, queue, visited, expanded)
    requires forall v :: v in visited' && v !in visited ==> v in Nodes(added)
    ensures Tracked(start, queue[1..] + added, visited', expanded + {queue[0].node})
  {
    NodesAppend(queue[1..], added);
    assert Nodes(queue) == [queue[0].node] + Nodes(queue[1..]);
  }

  lemma NextInQueueGraph(g: Graph, start: Name, queue: seq<Entry>, added: seq<Entry>)
    requires |queue| > 0 && queue[0].node in g
    requires QueueInGraph(g, start, queue)
    requires forall i :: 0 <= i < |added| ==> Adjacent(g, queue[0].node, added[i].node)
    ensures QueueInGraph(g, start, queue[1..] + added)
  {
    var next := queue[1..] + added;
    if Closed(g) && start in g {
      forall i | 0 <= i < |next|
        ensures next[i].node in g
      {
        if i >= |queue| - 1 {
          assert next[i] == added[i - (|queue| - 1)];
        } else {
          assert next[i] == queue[i + 1];
        }
      }
    }
  }

  /** Marking at least one new name visited shrinks the unvisited part of the universe. */
  lemma Progress(g: Graph, n: Name, visited: set<Name>, visited': set<Name>, added: seq<Entry>)
    requires n in g && visited <= Universe(g)
    requires visited' == visited + set x | x in g[n]
    requires forall v :: multiset(Nodes(added))[v] == if v in visited' && v !in visited then 1 else 0
    ensures visited' <= Universe(g)
    ensures |added| > 0 ==> |Universe(g) - visited'| < |Universe(g) - visited|
    ensures |added| == 0 ==> visited' == visited
  {
    var u := Universe(g);
    forall x | x in g[n]
      ensures x in u
    {
      assert x in (set a, b | a in g && b in g[a] :: b);
    }
    if |added| > 0 {
      var x := added[0].node;
      assert Nodes(added)[0] == x;
      assert x in visited' - visited;
      var smaller, larger := u - visited', u - visited;
      assert smaller <= larger && x in larger - smaller;
      assert larger == smaller + (larger - smaller);
      assert |larger - smaller| >= |{x}|;
    } else {
      forall v | v in visited'
        ensures v in visited
      {
        assert multiset(Nodes(added))[v] == 0;
      }
    }
  }

  lemma NextExpandedClosed(g: Graph, goal: Name, n: Name, expanded: set<Name>, visited: set<Name>, visited': set<Name>)
    requires ExpandedClosed(g, expanded, visited, goal)
    requires n in g && n != goal
    requires visited' == visited + set x | x in g[n]
    ensures ExpandedClosed(g, expanded + {n}, visited', goal)
  {
  }

  /** Expanding one more name keeps every shorter walk ending at an expanded name. */
  lemma ExpandedGrows(g: Graph, start: Name, expanded: set<Name>, n: Name, len: nat)
    requires ShorterWalksExpanded(g, start, expanded, len)
    ensures ShorterWalksExpanded(g, start, expanded + {n}, len)
  {
  }

  /** One iteration of the outer loop keeps the invariant and makes progress. */
  lemma StepKeepsInv(g: Graph, start: Name, goal: Name, queue: seq<Entry>, visited: set<Name>,
                     expanded: set<Name>, enqueued: seq<Name>, visited': set<Name>, added: seq<Entry>)
    requires SearchInv(g, start, goal, queue, visited, expanded, enqueued)
    requires |queue| > 0 && queue[0].node != goal && queue[0].node in g
    requires (visited', added) == Expand(g[queue[0].node], queue[0].path, visited)
    ensures SearchInv(g, start, goal, queue[1..] + added, visited', expanded + {queue[0].node},
                      enqueued + Nodes(added))
    ensures |Universe(g) - visited'| < |Universe(g) - visited|
            || (visited' == visited && |queue[1..] + added| < |queue|)
  {
    StepKeepsQueue(g, start, goal, queue, visited, expanded, enqueued, visited', added);
    StepKeepsRecords(g, start, goal, queue, visited, expanded, enqueued, visited', added);
    StepKeepsFront(g, start, goal, queue, visited, expanded, enqueued, visited', added);
    Progress(g, queue[0].node, visited, visited', added);
  }

  /** The queue half of the invariant after one iteration. */
  lemma StepKeepsQueue(g: Graph, start: Name, goal: Name, queue: seq<Entry>, visited: set<Name>,
                       expanded: set<Name>, enqueued: seq<Name>, visited': set<Name>, added: seq<Entry>)
    requires SearchInv(g, start, goal, queue, visited, expanded, enqueued)
    requires |queue| > 0 && queue[0].node != goal && queue[0].node in g
    requires (visited', added) == Expand(g[queue[0].node], queue[0].path, visited)
    ensures var next := queue[1..] + added;
      QueueWalks(g, start, next) && Layered(next) && QueueShortest(g, start, next) && QueueInGraph(g, start, next)
  {
    NextQueueShape(g, start, queue, added);
    AddedAreShortest(g, start, goal, queue[0], visited, expanded);
    NextQueueShortest(g, start, queue, added);
    NextInQueueGraph(g, start, queue, added);
  }

  /** The visited, expanded and enqueued half of the invariant after one iteration. */
  lemma StepKeepsRecords(g: Graph, start: Name, goal: Name, queue: seq<Entry>, visited: set<Name>,
                         expanded: set<Name>, enqueued: seq<Name>, visited': set<Name>, added: seq<Entry>)
    requires SearchInv(g, start, goal, queue, visited, expanded, enqueued)
    requires |queue| > 0 && queue[0].node != goal && queue[0].node in g
    requires (visited', added) == Expand(g[queue[0].node], queue[0].path, visited)
    ensures var next := queue[1..] + added;
      && visited' <= Universe(g)
      && ExpandedClosed(g, expanded + {queue[0].node}, visited', goal)
      && Tracked(start, next, visited', expanded + {queue[0].node})
      && (start == goal ==> next == [Entry(start, [start])])
      && EnqueueCounts(start, visited', enqueued + Nodes(added))
  {
    NextTracked(start, queue, visited, expanded, visited', added);
    CountsAfterStep(start, visited, enqueued, visited', added);
    NextExpandedClosed(g, goal, queue[0].node, expanded, visited, visited');
  }

  /** After one iteration every walk shorter than the new front's path ends
      at an expanded name. */
  lemma StepKeepsFront(g: Graph, start: Name, goal: Name, queue: seq<Entry>, visited: set<Name>,
                       expanded: set<Name>, enqueued: seq<Name>, visited': set<Name>, added: seq<Entry>)
    requires SearchInv(g, start, goal, queue, visited, expanded, enqueued)
    requires |queue| > 0 && queue[0].node != goal && queue[0].node in g
    requires (visited', added) == Expand(g[queue[0].node], queue[0].path, visited)
    ensures var next := queue[1..] + added;
      |next| > 0 ==> ShorterWalksExpanded(g, start, expanded + {queue[0].node}, |next[0].path|)
  {
    var e := queue[0];
    var next := queue[1..] + added;
    NextQueueShape(g, start, queue, added);
    if |next| > 0 && |next[0].path| == |e.path| + 1 {
      LayerCompleted(g, start, goal, queue, visited, expanded, added);
    } else if |next| > 0 {
      ExpandedGrows(g, start, expanded, e.node, |e.path|);
    }
  }

  /** The invariant when the front entry is the goal: its path is a shortest walk. */
  lemma {:induction false} GoalFound(g: Graph, start: Name, goal: Name, queue: seq<Entry>, visited: set<Name>,
                  expanded: set<Name>, enqueued: seq<Name>)
    requires SearchInv(g, start, goal, queue, visited, expanded, enqueued)
    requires |queue| > 0 && queue[0].node == goal
    ensures WalkBetween(g, queue[0].path, start, goal) && NoShorterWalk(g, start, goal, |queue[0].path|)
    ensures start == goal ==> queue[0].path == [start]
  {
  }

  /** The invariant once the queue is empty: `goal` cannot be reached. */
  lemma Exhausted(g: Graph, start: Name, goal: Name, visited: set<Name>, expanded: set<Name>, enqueued: seq<Name>)
    requires SearchInv(g, start, goal, [], visited, expanded, enqueued)
    ensures !Reachable(g, start, goal)
    ensures start != goal
  {
    forall w | WalkBetween(g, w, start, goal)
      ensures false
    {
      WalkStaysInside(g, expanded, w);
    }
  }

  lemma EnqueueBounds(start: Name, visited: set<Name>, enqueued: seq<Name>)
    requires EnqueueCounts(start, visited, enqueued)
    ensures forall v :: v != start ==> multiset(enqueued)[v] <= 1
    ensures multiset(enqueued)[start] <= 2
  {
  }

  lemma InitialInv(g: Graph, start: Name, goal: Name)
    ensures SearchInv(g, start, goal, [Entry(start, [start])], {}, {}, [start])
  {
    assert Nodes([Entry(start, [start])]) == [start];
  }

  /** `bfs_path`. The returned path is a shortest walk from `start` to `goal`;
      None is returned only when `goal` cannot be reached; `[start]` when the two
      coincide; an unknown `start` raises when it differs from `goal`. The ghost
      `enqueued` lists every name in the order it was enqueued: a name other than
      `start` at most once, `start` at most twice. */
  method BfsPath(g: Graph, start: Name, goal: Name)
    returns (r: Result<Option<seq<Name>>, SearchError>, ghost enqueued: seq<Name>)
    ensures start == goal ==> r == Success(Some([start]))
    ensures start != goal && start !in g ==> r == Failure(MissingNode(start))
    ensures Closed(g) && start in g ==> r.Success?
    ensures r.Success? && r.value.Some? ==>
      WalkBetween(g, r.value.value, start, goal) && NoShorterWalk(g, start, goal, |r.value.value|)
    ensures r == Success(None) ==> !Reachable(g, start, goal)
    ensures forall v :: v != start ==> multiset(enqueued)[v] <= 1
    ensures multiset(enqueued)[start] <= 2
  {
    var queue := [Entry(start, [start])];
    var visited: set<Name> := {};
    ghost var expanded: set<Name> := {};
    enqueued := [start];
    InitialInv(g, start, goal);
    while |queue| > 0
      invariant SearchInv(g, start, goal, queue, visited, expanded, enqueued)
      decreases |Universe(g) - visited|, |queue|
    {
      var e := queue[0];
      if e.node == goal {
        GoalFound(g, start, goal, queue, visited, expanded, enqueued);
        EnqueueBounds(start, visited, enqueued);
        return Success(Some(e.path)), enqueued;
      }
      if e.node !in g {
        EnqueueBounds(start, visited, enqueued);
        return Failure(MissingNode(e.node)), enqueued;
      }
      var step := Expand(g[e.node], e.path, visited);
      var visited', added := step.0, step.1;
      StepKeepsInv(g, start, goal, queue, visited, expanded, enqueued, visited', added);
      queue := queue[1..] + added;
      visited := visited';
      expanded := expanded + {e.node};
      enqueued := enqueued + Nodes(added);
    }
    Exhausted(g, start, goal, visited, expanded, enqueued);
    EnqueueBounds(start, visited, enqueued);
    return Success(None), enqueued;
  }

  /** A shortest walk never repeats a name (so neither does a path from BfsPath). */
  lemma {:induction false} ShortestWalkIsSimple(g: Graph, s: Name, t: Name, w: seq<Name>)
    requires WalkBetween(g, w, s, t) && NoShorterWalk(g, s, t, |w|)
    ensures forall i, j :: 0 <= i < j < |w| ==> w[i] != w[j]
  {
    forall i, j | 0 <= i < j < |w|
      ensures w[i] != w[j]
    {
      if w[i] == w[j] {
        Shortcut(g, s, t, w, i, j);
        assert false;
      }
    }
  }

  /** Cutting out the stretch between two equal names leaves a walk. */
  lemma Shortcut(g: Graph, s: Name, t: Name, w: seq<Name>, i: nat, j: nat)
    requires WalkBetween(g, w, s, t)
    requires i < j < |w| && w[i] == w[j]
    ensures WalkBetween(g, w[..i] + w[j..], s, t) && |w[..i] + w[j..]| < |w|
  {
    var u := w[..i] + w[j..];
    forall k | 0 <= k < |u| - 1
      ensures Adjacent(g, u[k], u[k + 1])
    {
      if k + 1 < i {
        assert u[k] == w[k] && u[k + 1] == w[k + 1];
      } else if k + 1 == i {
        assert u[k] == w[k] && u[k + 1] == w[j] == w[k + 1];
      } else {
        assert u[k] == w[k + j - i] && u[k + 1] == w[k + 1 + j - i];
      }
    }
  }
}
