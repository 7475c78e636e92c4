/** When a search returns exactly the expected list, and where it does not. */
module SearchCompleteness {
  import opened ByteStrings
  import opened VssTree
  import opened PathSegments
  import opened AccessRights
  import opened TreeSearch
  import opened SearchInvariants

  // ----- patterns -----

  predicate NoStar(q: Query) {
    WILDCARD !in Split(StripLeadingDot(q.path))
  }

  /** The wildcard is the last segment and no other; the path does not begin with a dot. */
  predicate OnlyLastStar(q: Query) {
    && q.path != [] && q.path[0] != DOT
    && var segments := Split(q.path);
    && segments[|segments| - 1] == WILDCARD
    && forall i :: 0 <= i < |segments| - 1 ==> segments[i] != WILDCARD
  }

  function SegmentCount(q: Query): nat { DotCount(q.path) + 1 }

  lemma {:induction false} NoStarAnywhere(q: Query, depth: int)
    requires NoStar(q) && depth >= 1
    ensures !IsStarAt(q, depth)
  {
  }

  lemma {:induction false} LastStarFrom(q: Query, depth: int)
    requires OnlyLastStar(q) && depth >= 1
    ensures IsStarAt(q, depth) <==> depth >= SegmentCount(q)
  {
    SplitCount(q.path);
  }

  /** Appended to a path, it asks for everything below. */
  const ALL_BELOW: bytes := [DOT, STAR]

  lemma {:induction false} WildcardAlone()
    ensures Split(WILDCARD) == [WILDCARD]
  {
    assert IndexDot(WILDCARD) == -1;
    SplitOne(WILDCARD);
  }

  lemma {:induction false} AllBelowIsLastStar(path: bytes, q: Query)
    requires path != [] && path[0] != DOT && WILDCARD !in Split(path)
    requires q.path == path + ALL_BELOW
    ensures OnlyLastStar(q)
  {
    hide IndexDot, Split;
    assert path + ALL_BELOW == path + [DOT] + WILDCARD;
    SplitJoin(path, WILDCARD);
    WildcardAlone();
  }

  // ----- no wildcard -----

  function Take<T>(s: seq<T>, n: nat): seq<T> {
    if |s| <= n then s else s[..n]
  }

  lemma TakeMore<T>(a: seq<T>, b: seq<T>, n: nat)
    ensures Take(Take(a, n) + b, n) == Take(a + b, n)
  {
  }

  /** Without a wildcard nothing is retracted: the first 1499 expected nodes are found. */
  lemma {:induction false} StarFreeExact(q: Query, c: Ctx, n: Node)
    requires NoStar(q) && DotFree(n) && c.depth >= 0 && (c.depth == 0 ==> c.path == [])
    requires c.depth == 0 || NameMatches(n.name, Segment(q.path, c.depth + 1))
    requires c.speculationIndex == -1 && |c.matches| <= MAX_MATCHES
    ensures var r := TraverseNode(q, c, n).0;
            && r.speculationIndex == -1
            && r.matches == Take(c.matches + Visit(q, n, c.depth + 1, PushSegment(c.path, c.depth, n.name)), MAX_MATCHES)
    decreases n, 0
  {
    hide Segment, PushSegment, PopSegment, TraverseChildren, Visit, VisitChildren, NoStar;
    var c1 := IncDepth(c, n);
    NoStarAnywhere(q, c1.depth);
    var c2 := SaveMatchingNode(q, c1, n);
    var mid := c.matches + if Reported(q, n) then [Match(c1.path, n)] else [];
    var below := if Stops(q, n, c1.depth, c1.path) then [] else VisitChildren(q, n.children, c1.depth + 1, c1.path);
    assert c2.matches == Take(mid, MAX_MATCHES);
    VisitShape(q, n, c1.depth, c1.path);
    assert c.matches + Visit(q, n, c1.depth, c1.path) == mid + below;
    if !Done(q, c1, n) {
      ChildrenStarFreeExact(q, c2, n.children);
      TakeMore(mid, below, MAX_MATCHES);
    }
  }

  lemma {:induction false} ChildrenStarFreeExact(q: Query, c: Ctx, ns: seq<Node>)
    requires NoStar(q) && c.depth >= 1 && (forall n :: n in ns ==> DotFree(n))
    requires c.speculationIndex == -1 && |c.matches| <= MAX_MATCHES
    ensures var r := TraverseChildren(q, c, ns, Segment(q.path, c.depth + 1)).0;
            && r.speculationIndex == -1
            && r.matches == Take(c.matches + VisitChildren(q, ns, c.depth + 1, c.path), MAX_MATCHES)
    decreases ns, 1
  {
    hide Segment, TraverseNode, Visit, NoStar;
    var segment := Segment(q.path, c.depth + 1);
    if ns != [] {
      var rest := VisitChildren(q, ns[1..], c.depth + 1, c.path);
      if NameMatches(ns[0].name, segment) {
        StarFreeExact(q, c, ns[0]);
        PathRestored(q, c, ns[0]);
        var first := Visit(q, ns[0], c.depth + 1, c.path + [DOT] + ns[0].name);
        ChildrenStarFreeExact(q, TraverseNode(q, c, ns[0]).0, ns[1..]);
        TakeMore(c.matches + first, rest, MAX_MATCHES);
        assert c.matches + first + rest == c.matches + (first + rest);
      } else {
        ChildrenStarFreeExact(q, c, ns[1..]);
        assert [] + rest == rest;
      }
    }
  }

  // ----- wildcard at the end -----

  /** The index on reaching `depth`: one slot for each wildcard level passed. */
  predicate IndexInStep(q: Query, c: Ctx) {
    c.speculationIndex == if c.depth < SegmentCount(q) then -1 else c.depth - SegmentCount(q)
  }

  /**
   With the wildcard last and fewer than 1499 nodes to report, everything below the wildcard
   succeeds, so nothing is retracted.
   */
  lemma {:induction false} LastStarExact(q: Query, c: Ctx, n: Node)
    requires OnlyLastStar(q) && q.noScopeList == []
    requires DotFree(n) && c.depth >= 0 && (c.depth == 0 ==> c.path == [])
    requires c.depth == 0 || NameMatches(n.name, Segment(q.path, c.depth + 1))
    requires IndexInStep(q, c)
    requires |c.matches| + |Visit(q, n, c.depth + 1, PushSegment(c.path, c.depth, n.name))| < MAX_MATCHES
    ensures var r := TraverseNode(q, c, n);
            && r.0.speculationIndex == c.speculationIndex
            && r.0.matches == c.matches + Visit(q, n, c.depth + 1, PushSegment(c.path, c.depth, n.name))
            && (c.depth + 1 >= SegmentCount(q) ==> r.1 >= 1)
    decreases n, 0
  {
    hide Segment, PushSegment, PopSegment, TraverseChildren, Visit, VisitChildren, OnlyLastStar, SaveMatchingNode, DecDepth;
    var c1 := IncDepth(c, n);
    LastStarFrom(q, c1.depth);
    var c2 := SaveMatchingNode(q, c1, n);
    var score := SaveScore(q, c1, c2, n);
    VisitShape(q, n, c1.depth, c1.path);
    SaveFrame(q, c1, n);
    SaveMatches(q, c1, n);
    if Done(q, c1, n) {
      DecFrame(q, c2, score);
      DecNoRetract(q, c2, score);
    } else {
      var r := TraverseChildren(q, c2, n.children, Segment(q.path, c2.depth + 1));
      ChildrenLastStarExact(q, c2, n.children);
      DecFrame(q, r.0, score + r.1);
      DecNoRetract(q, r.0, score + r.1);
    }
  }

  lemma {:induction false} SaveMatches(q: Query, c: Ctx, n: Node)
    requires c.depth >= 1
    ensures SaveMatchingNode(q, c, n).matches
         == c.matches + if !Capped(c) && Reported(q, n) then [Match(c.path, n)] else []
  {
    hide Segment, SearchMax, AddToSlot;
  }

  lemma {:induction false} DecNoRetract(q: Query, c: Ctx, succeeded: nat)
    requires c.depth >= 1 && (succeeded > 0 || c.speculationIndex < 0)
    ensures DecDepth(q, c, succeeded).matches == c.matches
  {
    hide Segment, PopSegment;
  }

  lemma {:induction false} ChildrenLastStarExact(q: Query, c: Ctx, ns: seq<Node>)
    requires OnlyLastStar(q) && q.noScopeList == []
    requires c.depth >= 1 && (forall n :: n in ns ==> DotFree(n))
    requires IndexInStep(q, c)
    requires |c.matches| + |VisitChildren(q, ns, c.depth + 1, c.path)| < MAX_MATCHES
    ensures var r := TraverseChildren(q, c, ns, Segment(q.path, c.depth + 1));
            && r.0.speculationIndex == c.speculationIndex
            && r.0.matches == c.matches + VisitChildren(q, ns, c.depth + 1, c.path)
            && (ns != [] && c.depth + 1 >= SegmentCount(q) ==> r.1 >= 1)
    decreases ns, 1
  {
    hide Segment, TraverseNode, Visit, OnlyLastStar;
    var segment := Segment(q.path, c.depth + 1);
    LastStarFrom(q, c.depth + 1);
    if ns != [] {
      var rest := VisitChildren(q, ns[1..], c.depth + 1, c.path);
      if NameMatches(ns[0].name, segment) {
        var first := Visit(q, ns[0], c.depth + 1, c.path + [DOT] + ns[0].name);
        assert VisitChildren(q, ns, c.depth + 1, c.path) == first + rest;
        LastStarExact(q, c, ns[0]);
        PathRestored(q, c, ns[0]);
        ChildrenLastStarExact(q, TraverseNode(q, c, ns[0]).0, ns[1..]);
        assert c.matches + first + rest == c.matches + (first + rest);
      } else {
        ChildrenLastStarExact(q, c, ns[1..]);
        assert [] + rest == rest;
      }
    }
  }

  // ----- the combined access requirement -----

  function Requirements(ms: seq<Match>): (vs: seq<int>)
    ensures |vs| == |ms| && forall i :: 0 <= i < |ms| ==> vs[i] == ms[i].node.validate
  {
    seq(|ms|, i requires 0 <= i < |ms| => ms[i].node.validate)
  }

  lemma {:induction false} JoinAllConcat(a: seq<int>, b: seq<int>, current: Level)
    ensures JoinAll(a + b, current) == JoinAll(b, JoinAll(a, current))
    decreases |a|
  {
    if a == [] {
      assert a + b == b;
    } else {
      assert (a + b)[1..] == a[1..] + b;
      JoinAllConcat(a[1..], b, SearchMax(a[0], current));
    }
  }

  lemma RootPath(name: bytes)
    ensures PushSegment([], 0, name) == name
  {
    assert [] + name == name;
  }

  /** The query that reports branches too, and so lists every node the search visits. */
  function Everything(q: Query): Query { q.(leafNodesOnly := false) }

  /** Below the cap, the requirement is the combination over all visited nodes, in any pattern. */
  lemma {:induction false} RequirementExact(q: Query, c: Ctx, n: Node)
    requires DotFree(n) && c.depth >= 0 && (c.depth == 0 ==> c.path == [])
    requires c.depth == 0 || NameMatches(n.name, Segment(q.path, c.depth + 1))
    requires |c.matches| + |Visit(q, n, c.depth + 1, PushSegment(c.path, c.depth, n.name))| < MAX_MATCHES
    ensures var r := TraverseNode(q, c, n).0;
            var path := PushSegment(c.path, c.depth, n.name);
            && |r.matches| <= |c.matches| + |Visit(q, n, c.depth + 1, path)|
            && r.maxValidation == JoinAll(Requirements(Visit(Everything(q), n, c.depth + 1, path)), c.maxValidation)
    decreases n, 0
  {
    hide Segment, PushSegment, PopSegment, TraverseChildren, Visit, VisitChildren, SaveMatchingNode, DecDepth, SearchMax, Requirements;
    var c1 := IncDepth(c, n);
    var c2 := SaveMatchingNode(q, c1, n);
    var score := SaveScore(q, c1, c2, n);
    VisitShape(q, n, c1.depth, c1.path);
    VisitShape(Everything(q), n, c1.depth, c1.path);
    SaveFrame(q, c1, n);
    SaveMatches(q, c1, n);
    SaveRequirement(q, c1, n);
    if Done(q, c1, n) {
      DecFrame(q, c2, score);
      DecFewer(q, c2, score);
      assert Visit(Everything(q), n, c1.depth, c1.path) == [Match(c1.path, n)];
      assert Requirements([Match(c1.path, n)]) == [n.validate as int];
    } else {
      var r := TraverseChildren(q, c2, n.children, Segment(q.path, c2.depth + 1));
      ChildrenRequirementExact(q, c2, n.children);
      DecFrame(q, r.0, score + r.1);
      DecFewer(q, r.0, score + r.1);
      var below := VisitChildren(Everything(q), n.children, c1.depth + 1, c1.path);
      assert Visit(Everything(q), n, c1.depth, c1.path) == [Match(c1.path, n)] + below;
      assert Requirements([Match(c1.path, n)] + below) == [n.validate as int] + Requirements(below);
      JoinAllConcat([n.validate as int], Requirements(below), c.maxValidation);
    }
  }

  lemma {:induction false} SaveRequirement(q: Query, c: Ctx, n: Node)
    requires c.depth >= 1 && !Capped(c)
    ensures SaveMatchingNode(q, c, n).maxValidation == SearchMax(n.validate, c.maxValidation)
    ensures JoinAll([n.validate as int], c.maxValidation) == SearchMax(n.validate, c.maxValidation)
  {
    hide Segment, SearchMax, AddToSlot;
  }

  lemma {:induction false} DecFewer(q: Query, c: Ctx, succeeded: nat)
    requires c.depth >= 1
    ensures |DecDepth(q, c, succeeded).matches| <= |c.matches|
  {
    hide Segment, PopSegment;
  }

  lemma {:induction false} ChildrenRequirementExact(q: Query, c: Ctx, ns: seq<Node>)
    requires c.depth >= 1 && (forall n :: n in ns ==> DotFree(n))
    requires |c.matches| + |VisitChildren(q, ns, c.depth + 1, c.path)| < MAX_MATCHES
    ensures var r := TraverseChildren(q, c, ns, Segment(q.path, c.depth + 1)).0;
            && |r.matches| <= |c.matches| + |VisitChildren(q, ns, c.depth + 1, c.path)|
            && r.maxValidation
               == JoinAll(Requirements(VisitChildren(Everything(q), ns, c.depth + 1, c.path)), c.maxValidation)
    decreases ns, 1
  {
    hide Segment, TraverseNode, Visit, Requirements;
    var segment := Segment(q.path, c.depth + 1);
    var all := VisitChildren(Everything(q), ns, c.depth + 1, c.path);
    if ns == [] {
      assert Requirements([]) == [];
    } else {
      var rest := VisitChildren(Everything(q), ns[1..], c.depth + 1, c.path);
      if NameMatches(ns[0].name, segment) {
        var first := Visit(Everything(q), ns[0], c.depth + 1, c.path + [DOT] + ns[0].name);
        RequirementExact(q, c, ns[0]);
        PathRestored(q, c, ns[0]);
        ChildrenRequirementExact(q, TraverseNode(q, c, ns[0]).0, ns[1..]);
        assert Requirements(first + rest) == Requirements(first) + Requirements(rest);
        JoinAllConcat(Requirements(first), Requirements(rest), c.maxValidation);
      } else {
        ChildrenRequirementExact(q, c, ns[1..]);
        assert [] + rest == rest;
      }
    }
  }

  // ----- whole searches -----

  /** The search is exact without wildcards (up to the cap) and with a last wildcard (below it). */
  lemma {:induction false} SearchExact(q: Query, root: Node)
    requires DotFree(root)
    ensures NoStar(q) ==> Search(q, root).matches == Take(Expected(q, root), MAX_MATCHES)
    ensures OnlyLastStar(q) && q.noScopeList == [] && |Expected(q, root)| < MAX_MATCHES
        ==> Search(q, root).matches == Expected(q, root)
    ensures |Expected(q, root)| < MAX_MATCHES
        ==> Search(q, root).maxValidation == JoinAll(Requirements(Expected(Everything(q), root)), 0)
  {
    hide TraverseNode, Visit, Segment, NoStar, OnlyLastStar;
    var c := StartCtx();
    RootPath(root.name);
    assert [] + Expected(q, root) == Expected(q, root);
    if NoStar(q) {
      StarFreeExact(q, c, root);
    }
    if |Expected(q, root)| < MAX_MATCHES {
      RequirementExact(q, c, root);
      if OnlyLastStar(q) && q.noScopeList == [] {
        LastStarExact(q, c, root);
      }
    }
  }

  // ----- overruns -----

  /** Some node visited in the subtree lies below more wildcards than there are slots. */
  predicate Deep(q: Query, n: Node, depth: nat, path: bytes)
    requires depth >= 1
    decreases n, 0
  {
    || Stars(q, depth) > SPECULATION_SLOTS
    || (!Stops(q, n, depth, path) && DeepChildren(q, n.children, depth + 1, path))
  }

  predicate DeepChildren(q: Query, ns: seq<Node>, depth: nat, parentPath: bytes)
    requires depth >= 1
    decreases ns, 1
  {
    ns != []
    && ((NameMatches(ns[0].name, Segment(q.path, depth)) && Deep(q, ns[0], depth, parentPath + [DOT] + ns[0].name))
        || DeepChildren(q, ns[1..], depth, parentPath))
  }

  /** Below the cap, for every pattern: the index is restored, and the array overruns exactly there. */
  lemma {:induction false} FaultExact(q: Query, c: Ctx, n: Node)
    requires DotFree(n) && c.depth >= 0 && (c.depth == 0 ==> c.path == [])
    requires c.depth == 0 || NameMatches(n.name, Segment(q.path, c.depth + 1))
    requires c.speculationIndex == Stars(q, c.depth) - 1
    requires |c.matches| + |Visit(q, n, c.depth + 1, PushSegment(c.path, c.depth, n.name))| < MAX_MATCHES
    ensures var r := TraverseNode(q, c, n).0;
            && r.speculationIndex == c.speculationIndex
            && r.fault == (c.fault || Deep(q, n, c.depth + 1, PushSegment(c.path, c.depth, n.name)))
    decreases n, 0
  {
    hide Segment, PushSegment, PopSegment, TraverseChildren, Visit, VisitChildren, SaveMatchingNode, DecDepth, DeepChildren;
    var c1 := IncDepth(c, n);
    var c2 := SaveMatchingNode(q, c1, n);
    var score := SaveScore(q, c1, c2, n);
    VisitShape(q, n, c1.depth, c1.path);
    SaveFrame(q, c1, n);
    SaveMatches(q, c1, n);
    if Done(q, c1, n) {
      DecFrame(q, c2, score);
    } else {
      var r := TraverseChildren(q, c2, n.children, Segment(q.path, c2.depth + 1));
      ChildrenFaultExact(q, c2, n.children);
      DecFrame(q, r.0, score + r.1);
    }
  }

  lemma {:induction false} ChildrenFaultExact(q: Query, c: Ctx, ns: seq<Node>)
    requires c.depth >= 1 && (forall n :: n in ns ==> DotFree(n))
    requires c.speculationIndex == Stars(q, c.depth) - 1
    requires |c.matches| + |VisitChildren(q, ns, c.depth + 1, c.path)| < MAX_MATCHES
    ensures var r := TraverseChildren(q, c, ns, Segment(q.path, c.depth + 1)).0;
            && r.speculationIndex == c.speculationIndex
            && r.fault == (c.fault || DeepChildren(q, ns, c.depth + 1, c.path))
    decreases ns, 1
  {
    hide Segment, TraverseNode, Visit, Deep, Stars;
    var segment := Segment(q.path, c.depth + 1);
    if ns != [] {
      var rest := VisitChildren(q, ns[1..], c.depth + 1, c.path);
      if NameMatches(ns[0].name, segment) {
        assert VisitChildren(q, ns, c.depth + 1, c.path) == Visit(q, ns[0], c.depth + 1, c.path + [DOT] + ns[0].name) + rest;
        FaultExact(q, c, ns[0]);
        PathRestored(q, c, ns[0]);
        RequirementExact(q, c, ns[0]);
        ChildrenFaultExact(q, TraverseNode(q, c, ns[0]).0, ns[1..]);
      } else {
        assert [] + rest == rest;
        ChildrenFaultExact(q, c, ns[1..]);
      }
    }
  }

  /** For every pattern below the cap, a search overruns exactly if it visits a node that is too deep. */
  lemma {:induction false} SearchFaultExact(q: Query, root: Node)
    requires DotFree(root) && |Expected(q, root)| < MAX_MATCHES
    ensures Search(q, root).fault <==> Deep(q, root, 1, root.name)
  {
    hide TraverseNode, Visit, Segment, Deep;
    RootPath(root.name);
    FaultExact(q, StartCtx(), root);
  }

  lemma {:induction false} LastStarCount(q: Query, depth: nat)
    requires OnlyLastStar(q)
    ensures Stars(q, depth) == if depth < SegmentCount(q) then 0 else depth - SegmentCount(q) + 1
  {
    hide Segment, OnlyLastStar;
    if depth > 0 {
      LastStarFrom(q, depth);
      LastStarCount(q, depth - 1);
    }
  }

  /** Under a last wildcard every level takes a slot of its own, down to the deepest node. */
  lemma {:induction false} DeepUnderStar(q: Query, n: Node, depth: nat, path: bytes)
    requires OnlyLastStar(q) && q.noScopeList == [] && depth >= 1 && depth + 1 >= SegmentCount(q)
    requires depth - 1 + Height(n) <= q.maxDepth
    ensures Deep(q, n, depth, path) <==> depth + Height(n) > SegmentCount(q) + SPECULATION_SLOTS
    decreases n, 0
  {
    hide Segment, OnlyLastStar;
    LastStarCount(q, depth);
    DeepChildrenUnderStar(q, n.children, depth + 1, path);
  }

  lemma {:induction false} DeepChildrenUnderStar(q: Query, ns: seq<Node>, depth: nat, parentPath: bytes)
    requires OnlyLastStar(q) && q.noScopeList == [] && depth >= 1 && depth >= SegmentCount(q)
    requires depth - 1 + ForestHeight(ns) <= q.maxDepth
    ensures DeepChildren(q, ns, depth, parentPath)
       <==> ns != [] && depth + ForestHeight(ns) > SegmentCount(q) + SPECULATION_SLOTS
    decreases ns, 1
  {
    hide Segment, OnlyLastStar, Deep;
    LastStarFrom(q, depth);
    if ns != [] {
      DeepUnderStar(q, ns[0], depth, parentPath + [DOT] + ns[0].name);
      DeepChildrenUnderStar(q, ns[1..], depth, parentPath);
    }
  }

  /**
   A search for everything below a root ("Root.*") stops with an index error exactly on trees of
   more than 21 levels.
   */
  lemma {:induction false} WildcardDepthLimit(q: Query, root: Node)
    requires DotFree(root) && OnlyLastStar(q) && q.noScopeList == [] && SegmentCount(q) == 2
    requires Height(root) <= q.maxDepth && |Expected(q, root)| < MAX_MATCHES
    ensures Search(q, root).fault <==> Height(root) > 21
  {
    hide Search, Deep, OnlyLastStar;
    SearchFaultExact(q, root);
    DeepUnderStar(q, root, 1, root.name);
  }
}
