/**
 Retracted matches. Leaving a node under a wildcard takes back the last match whenever the node's
 subtree scored nothing and a match is on record at the same wildcard level, whichever subtree that
 match came from. This gives, for every pattern, the exact condition for a complete result.
 */
module SearchRetraction {
  import opened ByteStrings
  import opened VssTree
  import opened PathSegments
  import opened AccessRights
  import opened TreeSearch
  import opened SearchInvariants
  import opened SearchCompleteness

  // ----- read off the tree and the pattern -----

  /** The slot used at `depth`: one less than the wildcards passed; negative for none. */
  function SlotAt(q: Query, depth: nat): int { Stars(q, depth) - 1 }

  function OwnScore(q: Query, n: Node, depth: nat): nat {
    if SlotAt(q, depth) >= 0 && ((|n.children| == 0 && depth >= SegmentCount(q)) || depth == q.maxDepth) then 1 else 0
  }

  /** How often the subtree of a visited node reaches the end of the pattern. */
  function Score(q: Query, n: Node, depth: nat, path: bytes): nat
    requires depth >= 1
    decreases n, 0
  {
    OwnScore(q, n, depth) + if Stops(q, n, depth, path) then 0 else ScoreChildren(q, n.children, depth + 1, path)
  }

  function ScoreChildren(q: Query, ns: seq<Node>, depth: nat, parentPath: bytes): nat
    requires depth >= 1
    decreases ns, 1
  {
    if ns == [] then 0
    else
      (if NameMatches(ns[0].name, Segment(q.path, depth)) then Score(q, ns[0], depth, parentPath + [DOT] + ns[0].name) else 0)
      + ScoreChildren(q, ns[1..], depth, parentPath)
  }

  function OwnTally(q: Query, n: Node, depth: nat, t: seq<int>): seq<int> {
    var slot := SlotAt(q, depth);
    if Reported(q, n) && 0 <= slot < |t| then t[slot := t[slot] + 1] else t
  }

  /** The matches per wildcard level, after the subtree of a visited node, given those before it. */
  function Tally(q: Query, n: Node, depth: nat, path: bytes, t: seq<int>): seq<int>
    requires depth >= 1
    decreases n, 0
  {
    var t1 := OwnTally(q, n, depth, t);
    if Stops(q, n, depth, path) then t1 else TallyChildren(q, n.children, depth + 1, path, t1)
  }

  function TallyChildren(q: Query, ns: seq<Node>, depth: nat, parentPath: bytes, t: seq<int>): seq<int>
    requires depth >= 1
    decreases ns, 1
  {
    if ns == [] then t
    else
      var t1 := if NameMatches(ns[0].name, Segment(q.path, depth))
                then Tally(q, ns[0], depth, parentPath + [DOT] + ns[0].name, t) else t;
      TallyChildren(q, ns[1..], depth, parentPath, t1)
  }

  /** Leaving the node takes nothing back. */
  predicate Settles(q: Query, n: Node, depth: nat, path: bytes, t: seq<int>)
    requires depth >= 1
  {
    var slot := SlotAt(q, depth);
    var after := Tally(q, n, depth, path, t);
    0 <= slot < |after| && Score(q, n, depth, path) == 0 ==> after[slot] <= 0
  }

  /** Nothing is taken back anywhere in the subtree of a visited node. */
  predicate Clean(q: Query, n: Node, depth: nat, path: bytes, t: seq<int>)
    requires depth >= 1
    decreases n, 0
  {
    && (Stops(q, n, depth, path) || CleanChildren(q, n.children, depth + 1, path, OwnTally(q, n, depth, t)))
    && Settles(q, n, depth, path, t)
  }

  predicate CleanChildren(q: Query, ns: seq<Node>, depth: nat, parentPath: bytes, t: seq<int>)
    requires depth >= 1
    decreases ns, 1
  {
    if ns == [] then true
    else if NameMatches(ns[0].name, Segment(q.path, depth)) then
      && Clean(q, ns[0], depth, parentPath + [DOT] + ns[0].name, t)
      && CleanChildren(q, ns[1..], depth, parentPath, Tally(q, ns[0], depth, parentPath + [DOT] + ns[0].name, t))
    else CleanChildren(q, ns[1..], depth, parentPath, t)
  }

  // ----- the search agrees -----

  ghost predicate InStep(q: Query, c: Ctx) {
    c.depth >= 0 && c.speculationIndex == SlotAt(q, c.depth) && CountsOk(c)
  }

  lemma {:induction false} SaveInStep(q: Query, c: Ctx, n: Node)
    requires c.depth >= 1 && CountsOk(c) && c.speculationIndex == SlotAt(q, c.depth - 1) && !Capped(c)
    requires Stars(q, c.depth) <= SPECULATION_SLOTS
    ensures var d := SaveMatchingNode(q, c, n);
            && InStep(q, d) && d.depth == c.depth && d.path == c.path
            && d.speculativeMatches == OwnTally(q, n, c.depth, c.speculativeMatches)
            && SaveScore(q, c, d, n) == OwnScore(q, n, c.depth)
  {
    hide Segment, SearchMax, CountsOk;
    SaveKeepsCounts(q, c, n);
    assert |c.speculativeMatches| == SPECULATION_SLOTS by { CountsShape(c); }
  }

  lemma CountsShape(c: Ctx)
    requires CountsOk(c)
    ensures |c.speculativeMatches| == SPECULATION_SLOTS
    ensures Slot(c) > 0 ==> c.matches != []
  {
    if 0 <= c.speculationIndex < SPECULATION_SLOTS {
      SumAtLeast(c.speculativeMatches, c.speculationIndex);
    }
  }

  lemma {:induction false} DecInStep(q: Query, c: Ctx, succeeded: nat)
    requires c.depth >= 1 && InStep(q, c)
    ensures var d := DecDepth(q, c, succeeded);
            && InStep(q, d)
            && if Slot(c) > 0 && succeeded == 0 then |d.matches| == |c.matches| - 1
               else d.matches == c.matches && d.speculativeMatches == c.speculativeMatches
  {
    hide Segment, PopSegment, CountsOk;
    DecKeepsCounts(q, c, succeeded);
    DecFrame(q, c, succeeded);
    CountsShape(c);
  }

  lemma {:induction false} RetractionExact(q: Query, c: Ctx, n: Node)
    requires DotFree(n) && InStep(q, c) && (c.depth == 0 ==> c.path == [])
    requires c.depth == 0 || NameMatches(n.name, Segment(q.path, c.depth + 1))
    requires !Deep(q, n, c.depth + 1, PushSegment(c.path, c.depth, n.name))
    requires |c.matches| + |Visit(q, n, c.depth + 1, PushSegment(c.path, c.depth, n.name))| < MAX_MATCHES
    ensures var path := PushSegment(c.path, c.depth, n.name);
            var visits := Visit(q, n, c.depth + 1, path);
            var r := TraverseNode(q, c, n);
            && InStep(q, r.0) && r.1 == Score(q, n, c.depth + 1, path)
            && if Clean(q, n, c.depth + 1, path, c.speculativeMatches) then
                 && r.0.matches == c.matches + visits
                 && r.0.speculativeMatches == Tally(q, n, c.depth + 1, path, c.speculativeMatches)
               else
                 |r.0.matches| < |c.matches| + |visits|
    decreases n, 0
  {
    hide Segment, PushSegment, PopSegment, TraverseChildren, Visit, VisitChildren, SaveMatchingNode, DecDepth,
      CountsOk, ScoreChildren, TallyChildren, CleanChildren, DeepChildren, Stars, SaveScore, OwnScore;
    var c1 := IncDepth(c, n);
    assert CountsOk(c1) by { CountsOfFrame(c, c1); }
    var c2 := SaveMatchingNode(q, c1, n);
    SaveInStep(q, c1, n);
    SaveMatches(q, c1, n);
    VisitShape(q, n, c1.depth, c1.path);
    CountsShape(c2);
    var score := SaveScore(q, c1, c2, n);
    if Done(q, c1, n) {
      DecInStep(q, c2, score);
    } else {
      var r := TraverseChildren(q, c2, n.children, Segment(q.path, c2.depth + 1));
      ChildrenRetractionExact(q, c2, n.children);
      DecInStep(q, r.0, score + r.1);
      CountsShape(r.0);
    }
  }

  lemma {:induction false} ChildrenRetractionExact(q: Query, c: Ctx, ns: seq<Node>)
    requires c.depth >= 1 && (forall n :: n in ns ==> DotFree(n)) && InStep(q, c)
    requires !DeepChildren(q, ns, c.depth + 1, c.path)
    requires |c.matches| + |VisitChildren(q, ns, c.depth + 1, c.path)| < MAX_MATCHES
    ensures var visits := VisitChildren(q, ns, c.depth + 1, c.path);
            var r := TraverseChildren(q, c, ns, Segment(q.path, c.depth + 1));
            && InStep(q, r.0) && r.1 == ScoreChildren(q, ns, c.depth + 1, c.path)
            && if CleanChildren(q, ns, c.depth + 1, c.path, c.speculativeMatches) then
                 && r.0.matches == c.matches + visits
                 && r.0.speculativeMatches == TallyChildren(q, ns, c.depth + 1, c.path, c.speculativeMatches)
               else
                 |r.0.matches| < |c.matches| + |visits|
    decreases ns, 1
  {
    hide Segment, TraverseNode, Visit, Score, Tally, Clean, CountsOk, Deep, Stars;
    var segment := Segment(q.path, c.depth + 1);
    if ns != [] {
      var rest := VisitChildren(q, ns[1..], c.depth + 1, c.path);
      if NameMatches(ns[0].name, segment) {
        var first := Visit(q, ns[0], c.depth + 1, c.path + [DOT] + ns[0].name);
        assert VisitChildren(q, ns, c.depth + 1, c.path) == first + rest;
        RetractionExact(q, c, ns[0]);
        PathRestored(q, c, ns[0]);
        ChildrenRetractionExact(q, TraverseNode(q, c, ns[0]).0, ns[1..]);
        assert c.matches + first + rest == c.matches + (first + rest);
      } else {
        assert [] + rest == rest;
        ChildrenRetractionExact(q, c, ns[1..]);
      }
    }
  }

  /**
   For every pattern and every search with fewer than 1499 nodes to report that does not overrun,
   the result is complete exactly when nothing is taken back, which the tree and the pattern alone
   decide.
   */
  lemma {:induction false} CompleteIff(q: Query, root: Node)
    requires DotFree(root) && |Expected(q, root)| < MAX_MATCHES && !Search(q, root).fault
    ensures Search(q, root).matches == Expected(q, root)
       <==> Clean(q, root, 1, root.name, StartCtx().speculativeMatches)
  {
    hide TraverseNode, Visit, Segment, Clean, Tally, Score, Deep;
    var c := StartCtx();
    SearchFaultExact(q, root);
    SumOfZeros(c.speculativeMatches);
    RootPath(root.name);
    RetractionExact(q, c, root);
    assert [] + Expected(q, root) == Expected(q, root);
  }
}
