/**
 The wildcard search over a VSS tree: the state it threads through the traversal, each step as a
 function of that state, and the recursive list of nodes it is meant to report.
 */
module TreeSearch {
  import opened ByteStrings
  import opened VssTree
  import opened PathSegments
  import opened AccessRights

  const MAXFOUNDNODES := 1500
  const MAX_MATCHES := MAXFOUNDNODES - 1
  const SPECULATION_SLOTS := 20
  const WILDCARD: bytes := [STAR]

  datatype Query = Query(path: bytes, maxDepth: int, leafNodesOnly: bool, noScopeList: seq<bytes>)

  datatype Match = Match(path: bytes, node: Node)

  /**
   The search state. `matches` is the live part of the match buffer. `fault` records that a slot
   outside the speculation array was touched, where the program stops with an index error.
   */
  datatype Ctx = Ctx(
    depth: int,
    path: bytes,
    speculationIndex: int,
    speculativeMatches: seq<int>,
    maxValidation: Level,
    matches: seq<Match>,
    fault: bool)

  function StartCtx(): Ctx {
    Ctx(0, [], -1, seq(SPECULATION_SLOTS, _ => 0), 0, [], false)
  }

  // ----- the pieces of a step -----

  predicate NameMatches(nodeName: bytes, segment: bytes) {
    nodeName == segment || segment == WILDCARD
  }

  predicate IsStarAt(q: Query, depth: int)
    requires depth >= 1
  {
    Segment(q.path, depth) == WILDCARD
  }

  /** Index of the last dot, or -1. */
  function LastIndexDot(s: bytes): (i: int)
    ensures -1 <= i < |s|
    ensures i >= 0 ==> s[i] == DOT
    ensures forall j :: i < j < |s| ==> s[j] != DOT
  {
    if s == [] then -1
    else if s[|s| - 1] == DOT then |s| - 1
    else LastIndexDot(s[..|s| - 1])
  }

  function PushSegment(path: bytes, depth: int, name: bytes): bytes {
    (if depth > 0 then path + [DOT] else path) + name
  }

  function PopSegment(path: bytes): bytes {
    var i := LastIndexDot(path);
    if i == -1 then [] else path[..i]
  }

  predicate SlotOk(i: int) { i < SPECULATION_SLOTS }

  function Slot(c: Ctx): int {
    if 0 <= c.speculationIndex < |c.speculativeMatches| then c.speculativeMatches[c.speculationIndex] else 0
  }

  function AddToSlot(c: Ctx, delta: int): seq<int> {
    if 0 <= c.speculationIndex < |c.speculativeMatches|
    then c.speculativeMatches[c.speculationIndex := c.speculativeMatches[c.speculationIndex] + delta]
    else c.speculativeMatches
  }

  function IncDepth(c: Ctx, n: Node): Ctx {
    c.(path := PushSegment(c.path, c.depth, n.name), depth := c.depth + 1)
  }

  predicate Reported(q: Query, n: Node) {
    n.nodeType != BRANCH || !q.leafNodesOnly
  }

  /** The traversal does not go below this node. */
  predicate Stops(q: Query, n: Node, depth: int, path: bytes) {
    |n.children| == 0 || depth == q.maxDepth || path in q.noScopeList
  }

  predicate Capped(c: Ctx) { |c.matches| == MAX_MATCHES }

  /** A visited node: combine its access requirement and record it if it is to be reported. */
  function SaveMatchingNode(q: Query, c: Ctx, n: Node): Ctx
    requires c.depth >= 1
  {
    if Capped(c) then c
    else
      var c1 := if IsStarAt(q, c.depth) then c.(speculationIndex := c.speculationIndex + 1) else c;
      var c2 := c1.(maxValidation := SearchMax(n.validate, c1.maxValidation));
      if Reported(q, n) then
        c2.(matches := c2.matches + [Match(c2.path, n)],
            speculativeMatches := AddToSlot(c2, 1),
            fault := c2.fault || !SlotOk(c2.speculationIndex))
      else c2
  }

  /** Whether a visited node ends its branch; `c` is the state before it was saved. */
  predicate Done(q: Query, c: Ctx, n: Node) {
    Capped(c) || Stops(q, n, c.depth, c.path)
  }

  /** What a visited node adds to the success count; `c` before and `saved` after it was saved. */
  function SaveScore(q: Query, c: Ctx, saved: Ctx, n: Node): nat {
    if Capped(c) then 0
    else if saved.speculationIndex >= 0
         && ((|n.children| == 0 && c.depth >= DotCount(q.path) + 1) || c.depth == q.maxDepth)
    then 1 else 0
  }

  /** Leaving a node: take back one match if speculation failed, then restore depth and path. */
  function DecDepth(q: Query, c: Ctx, succeeded: nat): Ctx
    requires c.depth >= 1
  {
    var c0 := c.(fault := c.fault || !SlotOk(c.speculationIndex));
    var c1 := if Slot(c0) > 0 && succeeded == 0 && c0.matches != [] then
                c0.(matches := c0.matches[..|c0.matches| - 1], speculativeMatches := AddToSlot(c0, -1))
              else c0;
    var c2 := if IsStarAt(q, c1.depth) then c1.(speculationIndex := c1.speculationIndex - 1) else c1;
    c2.(path := PopSegment(c2.path), depth := c2.depth - 1)
  }

  // ----- the traversal -----

  function TraverseNode(q: Query, c: Ctx, n: Node): (r: (Ctx, nat))
    requires c.depth >= 0
    ensures r.0.depth == c.depth
    decreases n, 0
  {
    hide Segment, NameMatches, SaveScore, Done, PushSegment, PopSegment, SearchMax, AddToSlot, IsStarAt;
    var c1 := IncDepth(c, n);
    if c1.depth == 1 || NameMatches(n.name, Segment(q.path, c1.depth)) then
      var c2 := SaveMatchingNode(q, c1, n);
      var score := SaveScore(q, c1, c2, n);
      if Done(q, c1, n) then (DecDepth(q, c2, score), score)
      else
        var r := TraverseChildren(q, c2, n.children, Segment(q.path, c2.depth + 1));
        (DecDepth(q, r.0, score + r.1), score + r.1)
    else (DecDepth(q, c1, 0), 0)
  }

  function TraverseChildren(q: Query, c: Ctx, ns: seq<Node>, segment: bytes): (r: (Ctx, nat))
    requires c.depth >= 1
    ensures r.0.depth == c.depth
    decreases ns, 1
  {
    if ns == [] then (c, 0)
    else
      var r1 := if NameMatches(ns[0].name, segment) then TraverseNode(q, c, ns[0]) else (c, 0);
      var r2 := TraverseChildren(q, r1.0, ns[1..], segment);
      (r2.0, r1.1 + r2.1)
  }

  function Search(q: Query, root: Node): Ctx {
    TraverseNode(q, StartCtx(), root).0
  }

  // ----- what a search is meant to report -----

  /** The nodes to report in the subtree of `n`, in preorder; `n` lies at `depth` under `path`. */
  function Visit(q: Query, n: Node, depth: int, path: bytes): seq<Match>
    requires depth >= 1
    decreases n, 0
  {
    (if Reported(q, n) then [Match(path, n)] else [])
    + (if Stops(q, n, depth, path) then [] else VisitChildren(q, n.children, depth + 1, path))
  }

  function VisitChildren(q: Query, ns: seq<Node>, depth: int, parentPath: bytes): seq<Match>
    requires depth >= 1
    decreases ns, 1
  {
    if ns == [] then []
    else
      (if NameMatches(ns[0].name, Segment(q.path, depth))
       then Visit(q, ns[0], depth, parentPath + [DOT] + ns[0].name) else [])
      + VisitChildren(q, ns[1..], depth, parentPath)
  }

  /** The list a search of `root` is meant to return. */
  function Expected(q: Query, root: Node): seq<Match> {
    Visit(q, root, 1, root.name)
  }

  ghost predicate DotFree(n: Node) {
    DOT !in n.name && forall c :: c in n.children ==> DotFree(c)
  }
}
