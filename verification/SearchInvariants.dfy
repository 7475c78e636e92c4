/** What every step of a search keeps, for every pattern, every tree and also past the match cap. */
module SearchInvariants {
  import opened ByteStrings
  import opened VssTree
  import opened PathSegments
  import opened AccessRights
  import opened TreeSearch

  // ----- the path stack -----

  lemma {:induction false} PopPush(path: bytes, depth: int, name: bytes)
    requires DOT !in name && depth >= 0 && (depth == 0 ==> path == [])
    ensures PopSegment(PushSegment(path, depth, name)) == path
  {
    hide LastIndexDot;
    var full := PushSegment(path, depth, name);
    if depth == 0 {
      assert full == name;
    } else {
      assert full[|path|] == DOT;
      assert forall j :: |path| < j < |full| ==> full[j] == name[j - |path| - 1];
      assert LastIndexDot(full) == |path|;
    }
  }

  lemma {:induction false} SaveFrame(q: Query, c: Ctx, n: Node)
    requires c.depth >= 1
    ensures var d := SaveMatchingNode(q, c, n);
            var star := if IsStarAt(q, c.depth) then 1 else 0;
            && d.depth == c.depth && d.path == c.path
            && d.speculationIndex == c.speculationIndex + (if Capped(c) then 0 else star)
            && d.fault == (c.fault || (!Capped(c) && Reported(q, n) && !SlotOk(d.speculationIndex)))
  {
    hide Segment, SearchMax;
  }

  lemma {:induction false} DecFrame(q: Query, c: Ctx, succeeded: nat)
    requires c.depth >= 1
    ensures var d := DecDepth(q, c, succeeded);
            var star := if IsStarAt(q, c.depth) then 1 else 0;
            && d.depth == c.depth - 1 && d.path == PopSegment(c.path)
            && d.speculationIndex == c.speculationIndex - star
            && d.fault == (c.fault || !SlotOk(c.speculationIndex))
            && d.maxValidation == c.maxValidation
  {
    hide Segment, PopSegment;
  }

  /** A traversal puts the path back as it found it. */
  lemma {:induction false} PathRestored(q: Query, c: Ctx, n: Node)
    requires DotFree(n) && c.depth >= 0 && (c.depth == 0 ==> c.path == [])
    ensures TraverseNode(q, c, n).0.path == c.path
    decreases n, 0
  {
    hide Segment, PopSegment, PushSegment, SaveMatchingNode, DecDepth, TraverseChildren;
    PopPush(c.path, c.depth, n.name);
    var c1 := IncDepth(c, n);
    var c2 := SaveMatchingNode(q, c1, n);
    var score := SaveScore(q, c1, c2, n);
    SaveFrame(q, c1, n);
    var r := TraverseChildren(q, c2, n.children, Segment(q.path, c2.depth + 1));
    ChildrenPathRestored(q, c2, n.children, Segment(q.path, c2.depth + 1));
    DecFrame(q, c1, 0);
    DecFrame(q, c2, score);
    DecFrame(q, r.0, score + r.1);
  }

  lemma {:induction false} ChildrenPathRestored(q: Query, c: Ctx, ns: seq<Node>, segment: bytes)
    requires c.depth >= 1 && forall n :: n in ns ==> DotFree(n)
    ensures TraverseChildren(q, c, ns, segment).0.path == c.path
    decreases ns, 1
  {
    hide Segment, TraverseNode;
    if ns != [] {
      PathRestored(q, c, ns[0]);
      var r1 := if NameMatches(ns[0].name, segment) then TraverseNode(q, c, ns[0]) else (c, 0);
      ChildrenPathRestored(q, r1.0, ns[1..], segment);
    }
  }

  // ----- the counters -----

  function Sum(s: seq<int>): int {
    if s == [] then 0 else s[0] + Sum(s[1..])
  }

  lemma {:induction false} SumUpdate(s: seq<int>, i: nat, v: int)
    requires i < |s|
    ensures Sum(s[i := v]) == Sum(s) - s[i] + v
  {
    if i == 0 {
      assert s[0 := v][1..] == s[1..];
    } else {
      SumUpdate(s[1..], i - 1, v);
      assert s[i := v][1..] == s[1..][i - 1 := v];
    }
  }

  lemma {:induction false} SumAtLeast(s: seq<int>, i: nat)
    requires i < |s| && forall j :: 0 <= j < |s| ==> s[j] >= 0
    ensures Sum(s) >= s[i]
  {
    if i > 0 {
      SumAtLeast(s[1..], i - 1);
    } else if |s| > 1 {
      SumAtLeast(s[1..], 0);
    }
  }

  /** Speculative matches are counted among the live ones, and those never exceed the cap. */
  ghost predicate CountsOk(c: Ctx) {
    && |c.speculativeMatches| == SPECULATION_SLOTS
    && (forall i :: 0 <= i < SPECULATION_SLOTS ==> c.speculativeMatches[i] >= 0)
    && 0 <= Sum(c.speculativeMatches) <= |c.matches| <= MAX_MATCHES
  }

  lemma {:induction false} SaveKeepsCounts(q: Query, c: Ctx, n: Node)
    requires CountsOk(c) && c.depth >= 1
    ensures CountsOk(SaveMatchingNode(q, c, n))
  {
    hide Segment, Sum, SearchMax;
    var i := if IsStarAt(q, c.depth) then c.speculationIndex + 1 else c.speculationIndex;
    if 0 <= i < SPECULATION_SLOTS {
      SumUpdate(c.speculativeMatches, i, c.speculativeMatches[i] + 1);
    }
  }

  /** A match is taken back only when there is one. */
  lemma {:induction false} DecKeepsCounts(q: Query, c: Ctx, succeeded: nat)
    requires CountsOk(c) && c.depth >= 1
    ensures CountsOk(DecDepth(q, c, succeeded))
    ensures Slot(c) > 0 ==> c.matches != []
  {
    hide Segment, Sum, PopSegment;
    var i := c.speculationIndex;
    if 0 <= i < SPECULATION_SLOTS {
      SumAtLeast(c.speculativeMatches, i);
      SumUpdate(c.speculativeMatches, i, c.speculativeMatches[i] - 1);
    }
  }

  lemma {:induction false} CountsKept(q: Query, c: Ctx, n: Node)
    requires CountsOk(c) && c.depth >= 0
    ensures CountsOk(TraverseNode(q, c, n).0)
    decreases n, 0
  {
    hide Segment, CountsOk, SaveMatchingNode, DecDepth, PushSegment;
    var c1 := IncDepth(c, n);
    assert CountsOk(c1) by { CountsOfFrame(c, c1); }
    var c2 := SaveMatchingNode(q, c1, n);
    SaveKeepsCounts(q, c1, n);
    var score := SaveScore(q, c1, c2, n);
    SaveFrame(q, c1, n);
    var r := TraverseChildren(q, c2, n.children, Segment(q.path, c2.depth + 1));
    ChildrenCountsKept(q, c2, n.children, Segment(q.path, c2.depth + 1));
    DecKeepsCounts(q, c2, score);
    DecKeepsCounts(q, r.0, score + r.1);
    DecKeepsCounts(q, c1, 0);
  }

  lemma CountsOfFrame(c: Ctx, d: Ctx)
    requires CountsOk(c) && c.speculativeMatches == d.speculativeMatches && c.matches == d.matches
    ensures CountsOk(d)
  {
  }

  lemma {:induction false} ChildrenCountsKept(q: Query, c: Ctx, ns: seq<Node>, segment: bytes)
    requires CountsOk(c) && c.depth >= 1
    ensures CountsOk(TraverseChildren(q, c, ns, segment).0)
    decreases ns, 1
  {
    hide Segment, CountsOk, TraverseNode;
    if ns != [] {
      CountsKept(q, c, ns[0]);
      var r1 := if NameMatches(ns[0].name, segment) then TraverseNode(q, c, ns[0]) else (c, 0);
      ChildrenCountsKept(q, r1.0, ns[1..], segment);
    }
  }

  // ----- the speculation array -----

  /** Number of wildcard segments among the first `depth`. */
  function Stars(q: Query, depth: nat): nat {
    if depth == 0 then 0 else Stars(q, depth - 1) + if IsStarAt(q, depth) then 1 else 0
  }

  lemma {:induction false} StarsGrow(q: Query, d: nat, e: nat)
    requires d <= e
    ensures Stars(q, d) <= Stars(q, e)
    decreases e
  {
    if d < e {
      StarsGrow(q, d, e - 1);
    }
  }

  /**
   The index never exceeds the number of wildcards passed, so with at most 20 of them down to the
   tree's height no slot outside the array is touched. Past the cap the index only drifts down.
   */
  lemma {:induction false} NoFault(q: Query, c: Ctx, n: Node)
    requires c.depth >= 0 && c.speculationIndex < Stars(q, c.depth)
    requires Stars(q, c.depth + Height(n)) <= SPECULATION_SLOTS
    ensures TraverseNode(q, c, n).0.fault == c.fault
    ensures TraverseNode(q, c, n).0.speculationIndex <= c.speculationIndex
    decreases n, 0
  {
    hide Segment, PopSegment, PushSegment, SaveMatchingNode, DecDepth, TraverseChildren;
    var c1 := IncDepth(c, n);
    StarsGrow(q, c1.depth, c.depth + Height(n));
    var c2 := SaveMatchingNode(q, c1, n);
    var score := SaveScore(q, c1, c2, n);
    SaveFrame(q, c1, n);
    DecFrame(q, c1, 0);
    DecFrame(q, c2, score);
    if !Done(q, c1, n) {
      var r := TraverseChildren(q, c2, n.children, Segment(q.path, c2.depth + 1));
      ChildrenNoFault(q, c2, n.children, Segment(q.path, c2.depth + 1));
      DecFrame(q, r.0, score + r.1);
    }
  }

  lemma {:induction false} ChildrenNoFault(q: Query, c: Ctx, ns: seq<Node>, segment: bytes)
    requires c.depth >= 1 && c.speculationIndex < Stars(q, c.depth)
    requires Stars(q, c.depth + ForestHeight(ns)) <= SPECULATION_SLOTS
    ensures TraverseChildren(q, c, ns, segment).0.fault == c.fault
    ensures TraverseChildren(q, c, ns, segment).0.speculationIndex <= c.speculationIndex
    decreases ns, 1
  {
    hide Segment, TraverseNode;
    if ns != [] {
      StarsGrow(q, c.depth + Height(ns[0]), c.depth + ForestHeight(ns));
      StarsGrow(q, c.depth + ForestHeight(ns[1..]), c.depth + ForestHeight(ns));
      NoFault(q, c, ns[0]);
      var r1 := if NameMatches(ns[0].name, segment) then TraverseNode(q, c, ns[0]) else (c, 0);
      ChildrenNoFault(q, r1.0, ns[1..], segment);
    }
  }

  /** An overrun is never forgotten. */
  lemma {:induction false} FaultSticky(q: Query, c: Ctx, n: Node)
    requires c.depth >= 0 && c.fault
    ensures TraverseNode(q, c, n).0.fault
    decreases n, 0
  {
    hide Segment, PopSegment, PushSegment, SaveMatchingNode, DecDepth, TraverseChildren;
    var c1 := IncDepth(c, n);
    var c2 := SaveMatchingNode(q, c1, n);
    var score := SaveScore(q, c1, c2, n);
    SaveFrame(q, c1, n);
    DecFrame(q, c1, 0);
    DecFrame(q, c2, score);
    var r := TraverseChildren(q, c2, n.children, Segment(q.path, c2.depth + 1));
    ChildrenFaultSticky(q, c2, n.children, Segment(q.path, c2.depth + 1));
    DecFrame(q, r.0, score + r.1);
  }

  lemma {:induction false} ChildrenFaultSticky(q: Query, c: Ctx, ns: seq<Node>, segment: bytes)
    requires c.depth >= 1 && c.fault
    ensures TraverseChildren(q, c, ns, segment).0.fault
    decreases ns, 1
  {
    hide Segment, TraverseNode;
    if ns != [] {
      FaultSticky(q, c, ns[0]);
      var r1 := if NameMatches(ns[0].name, segment) then TraverseNode(q, c, ns[0]) else (c, 0);
      ChildrenFaultSticky(q, r1.0, ns[1..], segment);
    }
  }

  // ----- the match buffer -----

  /** `a` is `b` with some elements left out. */
  ghost predicate Subsequence<T(!new)>(a: seq<T>, b: seq<T>)
    decreases |b|
  {
    if a == [] then true
    else if b == [] then false
    else
      || (a[|a| - 1] == b[|b| - 1] && Subsequence(a[..|a| - 1], b[..|b| - 1]))
      || Subsequence(a, b[..|b| - 1])
  }

  lemma {:induction false} SubsequenceMember<T(!new)>(a: seq<T>, b: seq<T>, x: T)
    requires Subsequence(a, b) && x in a
    ensures x in b
    decreases |b|
  {
    if a[|a| - 1] == b[|b| - 1] && Subsequence(a[..|a| - 1], b[..|b| - 1]) {
      if x != a[|a| - 1] {
        SubsequenceMember(a[..|a| - 1], b[..|b| - 1], x);
      }
    } else {
      SubsequenceMember(a, b[..|b| - 1], x);
    }
  }

  lemma {:induction false} SubsequencePush<T(!new)>(a: seq<T>, b: seq<T>, x: T)
    requires Subsequence(a, b)
    ensures Subsequence(a + [x], b + [x])
  {
    assert (a + [x])[..|a|] == a && (b + [x])[..|b|] == b;
  }

  lemma {:induction false} SubsequenceSkip<T(!new)>(a: seq<T>, b: seq<T>, more: seq<T>)
    requires Subsequence(a, b)
    ensures Subsequence(a, b + more)
    decreases |more|
  {
    if more == [] {
      assert b + more == b;
    } else {
      SubsequenceSkip(a, b, more[..|more| - 1]);
      assert (b + more)[..|b + more| - 1] == b + more[..|more| - 1];
    }
  }

  lemma {:induction false} SubsequencePop<T(!new)>(a: seq<T>, b: seq<T>)
    requires Subsequence(a, b) && a != []
    ensures Subsequence(a[..|a| - 1], b)
    decreases |b|
  {
    var b' := b[..|b| - 1];
    if a[|a| - 1] == b[|b| - 1] && Subsequence(a[..|a| - 1], b') {
      SubsequenceSkip(a[..|a| - 1], b', [b[|b| - 1]]);
      assert b' + [b[|b| - 1]] == b;
    } else {
      SubsequencePop(a, b');
      SubsequenceSkip(a[..|a| - 1], b', [b[|b| - 1]]);
      assert b' + [b[|b| - 1]] == b;
    }
  }

  /** Whatever is retracted, the live matches stay in visiting order, with the paths of the visit. */
  lemma {:induction false} MatchesAreVisits(q: Query, c: Ctx, n: Node, base: seq<Match>)
    requires DotFree(n) && c.depth >= 0 && (c.depth == 0 ==> c.path == [])
    requires Subsequence(c.matches, base)
    ensures Subsequence(TraverseNode(q, c, n).0.matches, base + Visit(q, n, c.depth + 1, PushSegment(c.path, c.depth, n.name)))
    decreases n, 0
  {
    hide Segment, PopSegment, PushSegment, SearchMax, Subsequence, Visit, VisitChildren, TraverseChildren, SaveMatchingNode, DecDepth;
    var c1 := IncDepth(c, n);
    var c2 := SaveMatchingNode(q, c1, n);
    var score := SaveScore(q, c1, c2, n);
    SaveFrame(q, c1, n);
    var mid := base + if Reported(q, n) then [Match(c1.path, n)] else [];
    var below := if Stops(q, n, c1.depth, c1.path) then [] else VisitChildren(q, n.children, c1.depth + 1, c1.path);
    SaveVisits(q, c1, n, base);
    VisitShape(q, n, c1.depth, c1.path);
    assert base + Visit(q, n, c1.depth, c1.path) == mid + below;
    if !(c1.depth == 1 || NameMatches(n.name, Segment(q.path, c1.depth))) {
      DecVisits(q, c1, 0, base);
      SubsequenceSkip(DecDepth(q, c1, 0).matches, base, Visit(q, n, c1.depth, c1.path));
    } else if Done(q, c1, n) {
      DecVisits(q, c2, score, mid);
      SubsequenceSkip(DecDepth(q, c2, score).matches, mid, below);
    } else {
      var r := TraverseChildren(q, c2, n.children, Segment(q.path, c2.depth + 1));
      ChildrenMatchesAreVisits(q, c2, n.children, mid);
      DecVisits(q, r.0, score + r.1, mid + below);
    }
  }

  lemma {:induction false} VisitShape(q: Query, n: Node, depth: int, path: bytes)
    requires depth >= 1
    ensures Visit(q, n, depth, path)
         == (if Reported(q, n) then [Match(path, n)] else [])
            + (if Stops(q, n, depth, path) then [] else VisitChildren(q, n.children, depth + 1, path))
  {
    hide VisitChildren, Stops;
  }

  lemma {:induction false} SaveVisits(q: Query, c: Ctx, n: Node, base: seq<Match>)
    requires c.depth >= 1 && Subsequence(c.matches, base)
    ensures Subsequence(SaveMatchingNode(q, c, n).matches, base + if Reported(q, n) then [Match(c.path, n)] else [])
  {
    hide SaveMatchingNode, Subsequence;
    SaveAdds(q, c, n);
    if SaveMatchingNode(q, c, n).matches == c.matches {
      SubsequenceSkip(c.matches, base, if Reported(q, n) then [Match(c.path, n)] else []);
    } else {
      SubsequencePush(c.matches, base, Match(c.path, n));
    }
  }

  lemma SaveAdds(q: Query, c: Ctx, n: Node)
    requires c.depth >= 1
    ensures var r := SaveMatchingNode(q, c, n).matches;
            r == c.matches || (Reported(q, n) && r == c.matches + [Match(c.path, n)])
  {
    hide Segment, SearchMax;
  }

  lemma {:induction false} DecVisits(q: Query, c: Ctx, succeeded: nat, base: seq<Match>)
    requires c.depth >= 1 && Subsequence(c.matches, base)
    ensures Subsequence(DecDepth(q, c, succeeded).matches, base)
  {
    hide Segment, Subsequence, PopSegment;
    if c.matches != [] {
      SubsequencePop(c.matches, base);
    }
  }

  lemma {:induction false} ChildrenMatchesAreVisits(q: Query, c: Ctx, ns: seq<Node>, base: seq<Match>)
    requires c.depth >= 1 && (forall n :: n in ns ==> DotFree(n))
    requires Subsequence(c.matches, base)
    ensures Subsequence(TraverseChildren(q, c, ns, Segment(q.path, c.depth + 1)).0.matches,
                        base + VisitChildren(q, ns, c.depth + 1, c.path))
    decreases ns, 1
  {
    hide Segment, TraverseNode, Visit, Subsequence;
    var segment := Segment(q.path, c.depth + 1);
    if ns == [] {
      assert base + [] == base;
    } else {
      var first := if NameMatches(ns[0].name, segment) then Visit(q, ns[0], c.depth + 1, c.path + [DOT] + ns[0].name) else [];
      var r1 := if NameMatches(ns[0].name, segment) then TraverseNode(q, c, ns[0]) else (c, 0);
      if NameMatches(ns[0].name, segment) {
        MatchesAreVisits(q, c, ns[0], base);
        PathRestored(q, c, ns[0]);
      } else {
        assert base + first == base;
      }
      ChildrenMatchesAreVisits(q, r1.0, ns[1..], base + first);
      assert base + VisitChildren(q, ns, c.depth + 1, c.path) == base + first + VisitChildren(q, ns[1..], c.depth + 1, c.path);
    }
  }

  // ----- access requirements -----

  /** The combined requirement covers every live match. */
  ghost predicate RightsOk(c: Ctx) {
    forall m :: m in c.matches ==> Below(LevelOf(m.node.validate), c.maxValidation)
  }

  lemma {:induction false} SaveKeepsRights(q: Query, c: Ctx, n: Node)
    requires RightsOk(c) && c.depth >= 1
    ensures RightsOk(SaveMatchingNode(q, c, n))
  {
    hide Segment, SearchMax, Below, LevelOf;
    var d := SaveMatchingNode(q, c, n);
    if !Capped(c) {
      SearchMaxIsJoin(n.validate, c.maxValidation, 0);
      forall m | m in d.matches
        ensures Below(LevelOf(m.node.validate), d.maxValidation)
      {
        if m in c.matches {
          BelowOrder(LevelOf(m.node.validate), c.maxValidation, d.maxValidation);
        }
      }
    }
  }

  lemma {:induction false} RightsKept(q: Query, c: Ctx, n: Node)
    requires RightsOk(c) && c.depth >= 0
    ensures RightsOk(TraverseNode(q, c, n).0)
    decreases n, 0
  {
    hide Segment, SaveMatchingNode, DecDepth, PushSegment, TraverseChildren, RightsOk;
    var c1 := IncDepth(c, n);
    assert RightsOk(c1) by { RightsOfFrame(c, c1); }
    SaveKeepsRights(q, c1, n);
    var c2 := SaveMatchingNode(q, c1, n);
    var score := SaveScore(q, c1, c2, n);
    SaveFrame(q, c1, n);
    var r := TraverseChildren(q, c2, n.children, Segment(q.path, c2.depth + 1));
    ChildrenRightsKept(q, c2, n.children, Segment(q.path, c2.depth + 1));
    DecKeepsRights(q, c1, 0);
    DecKeepsRights(q, c2, score);
    DecKeepsRights(q, r.0, score + r.1);
  }

  lemma RightsOfFrame(c: Ctx, d: Ctx)
    requires RightsOk(c) && c.maxValidation == d.maxValidation && c.matches == d.matches
    ensures RightsOk(d)
  {
  }

  lemma {:induction false} DecKeepsRights(q: Query, c: Ctx, succeeded: nat)
    requires RightsOk(c) && c.depth >= 1
    ensures RightsOk(DecDepth(q, c, succeeded))
  {
    hide Segment, PopSegment, Below;
  }

  lemma {:induction false} ChildrenRightsKept(q: Query, c: Ctx, ns: seq<Node>, segment: bytes)
    requires RightsOk(c) && c.depth >= 1
    ensures RightsOk(TraverseChildren(q, c, ns, segment).0)
    decreases ns, 1
  {
    hide Segment, RightsOk, TraverseNode;
    if ns != [] {
      RightsKept(q, c, ns[0]);
      var r1 := if NameMatches(ns[0].name, segment) then TraverseNode(q, c, ns[0]) else (c, 0);
      ChildrenRightsKept(q, r1.0, ns[1..], segment);
    }
  }

  // ----- whole searches -----

  lemma {:induction false} SumOfZeros(s: seq<int>)
    requires forall i :: 0 <= i < |s| ==> s[i] == 0
    ensures Sum(s) == 0
  {
    if s != [] {
      SumOfZeros(s[1..]);
    }
  }

  /** For every tree, names with dots included, the reported requirement covers each result. */
  lemma {:induction false} SearchCovers(q: Query, root: Node)
    ensures CountsOk(Search(q, root)) && RightsOk(Search(q, root))
  {
    hide TraverseNode, CountsOk, RightsOk;
    StartOk();
    CountsKept(q, StartCtx(), root);
    RightsKept(q, StartCtx(), root);
  }

  lemma {:induction false} StartOk()
    ensures CountsOk(StartCtx()) && RightsOk(StartCtx())
  {
    SumOfZeros(StartCtx().speculativeMatches);
  }

  /**
   Every search, whatever its pattern and however many nodes it meets: the result is a subsequence
   of the expected list, at most 1499 long, and the reported requirement covers each result.
   */
  lemma {:induction false} SearchSound(q: Query, root: Node)
    requires DotFree(root)
    ensures Subsequence(Search(q, root).matches, Expected(q, root))
    ensures CountsOk(Search(q, root)) && RightsOk(Search(q, root))
    ensures Search(q, root).depth == 0 && Search(q, root).path == []
    ensures Stars(q, Height(root)) <= SPECULATION_SLOTS ==> !Search(q, root).fault
  {
    hide TraverseNode, Visit, Segment;
    var c := StartCtx();
    SearchCovers(q, root);
    PathRestored(q, c, root);
    MatchesAreVisits(q, c, root, []);
    assert PushSegment([], 0, root.name) == root.name;
    assert [] + Expected(q, root) == Expected(q, root);
    if Stars(q, Height(root)) <= SPECULATION_SLOTS {
      NoFault(q, c, root);
    }
  }
}
