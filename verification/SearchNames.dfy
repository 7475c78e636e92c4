/**
 What a search finds, said with the names in the tree and the parts of the path alone: which nodes,
 under which paths, and in which order.
 */
module SearchNames {
  import opened ByteStrings
  import opened VssTree
  import opened PathSegments
  import opened TreeSearch
  import opened SearchInvariants
  import opened SearchCompleteness
  import opened SearchContext
  import opened SearchMeaning
  import opened SearchSpoilers

  // ----- names on the way to a node -----

  function Names(n: Node, at: Address): (names: seq<bytes>)
    requires InTree(n, at)
    ensures |names| == |at| + 1
    decreases |at|
  {
    [n.name] + if at == [] then [] else Names(n.children[at[0]], at[1..])
  }

  lemma {:induction false} DottedNames(n: Node, at: Address)
    requires DotFree(n) && InTree(n, at)
    ensures Split(DottedPath(n, at)) == Names(n, at)
    decreases |at|
  {
    hide Split, IndexDot;
    assert IndexDot(n.name) == -1;
    SplitOne(n.name);
    if at == [] {
      assert DottedPath(n, at) == n.name;
    } else {
      var child := n.children[at[0]];
      DottedNames(child, at[1..]);
      SplitJoin(n.name, DottedPath(child, at[1..]));
      assert DottedPath(n, at) == n.name + [DOT] + DottedPath(child, at[1..]);
    }
  }

  lemma {:induction false} Above(n: Node, at: Address, k: nat)
    requires InTree(n, at) && k <= |at|
    ensures InTree(n, at[..k]) && NodeAt(n, at[..k]).name == Names(n, at)[k]
    ensures k < |at| ==> NodeAt(n, at[..k]).children != []
    decreases |at|
  {
    if k > 0 {
      Above(n.children[at[0]], at[1..], k - 1);
      assert at[..k][1..] == at[1..][..k - 1];
    }
  }

  // ----- nodes that are wanted -----

  /**
   The part of a path that applies to a level, the root's being 1: the parts stand between dots, a dot
   in front of the first counts for nothing, and the last one applies to all deeper levels.
   */
  function PartFor(path: bytes, level: nat): bytes
    requires level >= 1
  {
    var parts := Split(if path != [] && path[0] == '.' as int then path[1..] else path);
    if level <= |parts| then parts[level - 1] else parts[|parts| - 1]
  }

  /** Below the root, every name is the path's part for its level, or that part is a star. */
  ghost predicate NamedBy(path: bytes, names: seq<bytes>) {
    forall k :: 1 <= k < |names| ==> names[k] == PartFor(path, k + 1) || PartFor(path, k + 1) == Ascii("*")
  }

  /** The search goes on below the node at `at`: not at the depth limit, not out of scope. */
  ghost predicate GoesOn(q: Query, root: Node, at: Address) {
    InTree(root, at) && |at| + 1 != q.maxDepth && DottedPath(root, at) !in q.noScopeList
  }

  /** `m` is the node at `at` with its path, to be reported by its type, reached and named by the path. */
  ghost predicate Wanted(q: Query, root: Node, at: Address, m: Match) {
    && InTree(root, at) && m == Match(DottedPath(root, at), NodeAt(root, at))
    && (q.leafNodesOnly ==> m.node.nodeType != Ascii("branch"))
    && NamedBy(q.path, Names(root, at))
    && forall k :: 0 <= k < |at| ==> GoesOn(q, root, at[..k])
  }

  lemma PartIsSegment(path: bytes, level: nat)
    requires level >= 1
    ensures PartFor(path, level) == Segment(path, level)
  {
    hide Split;
  }

  lemma Literals()
    ensures Ascii("*") == WILDCARD && Ascii("branch") == BRANCH
  {
  }

  /** One step down: the node above does not end the search, and the name below it matches. */
  ghost predicate StepAt(q: Query, n: Node, depth: nat, path: bytes, at: Address, k: nat)
    requires InTree(n, at) && k < |at|
  {
    && InTree(n, at[..k])
    && depth + k != q.maxDepth && PathAt(n, at[..k], path) !in q.noScopeList
    && NameMatches(Names(n, at)[k + 1], Segment(q.path, depth + k + 1))
  }

  lemma {:induction false} StepBelow(q: Query, n: Node, depth: nat, path: bytes, at: Address, k: nat)
    requires depth >= 1 && InTree(n, at) && k + 1 < |at|
    ensures StepAt(q, n, depth, path, at, k + 1)
       <==> StepAt(q, n.children[at[0]], depth + 1, path + [DOT] + n.children[at[0]].name, at[1..], k)
  {
    hide Segment, NameMatches;
    assert at[..k + 1][1..] == at[1..][..k] && at[..k + 1][0] == at[0];
    assert Names(n, at)[k + 2] == Names(n.children[at[0]], at[1..])[k + 1];
  }

  lemma {:induction false} SelectedIff(q: Query, n: Node, depth: nat, path: bytes, at: Address)
    requires depth >= 1 && InTree(n, at)
    ensures Selected(q, n, depth, path, at)
       <==> Reported(q, NodeAt(n, at)) && forall k :: 0 <= k < |at| ==> StepAt(q, n, depth, path, at, k)
    decreases |at|
  {
    hide Segment, NameMatches, StepAt, Reported;
    if at != [] {
      var child := n.children[at[0]];
      var below, lower, rest := path + [DOT] + child.name, depth + 1, at[1..];
      SelectedIff(q, child, lower, below, rest);
      FirstStep(q, n, depth, path, at);
      forall k | 0 < k < |at|
        ensures StepAt(q, n, depth, path, at, k) == StepAt(q, child, lower, below, rest, k - 1)
      {
        StepBelow(q, n, depth, path, at, k - 1);
      }
      if forall k :: 0 <= k < |at| ==> StepAt(q, n, depth, path, at, k) {
        forall k | 0 <= k < |rest| ensures StepAt(q, child, lower, below, rest, k) {
          assert StepAt(q, n, depth, path, at, k + 1);
        }
      }
    }
  }

  lemma {:induction false} FirstStep(q: Query, n: Node, depth: nat, path: bytes, at: Address)
    requires depth >= 1 && InTree(n, at) && at != []
    ensures StepAt(q, n, depth, path, at, 0)
       <==> !Stops(q, n, depth, path) && NameMatches(n.children[at[0]].name, Segment(q.path, depth + 1))
  {
    hide Segment, NameMatches;
    assert at[..0] == [];
    assert Names(n, at)[1] == n.children[at[0]].name;
  }

  lemma {:induction false} WantedIff(q: Query, root: Node, at: Address, m: Match)
    ensures Wanted(q, root, at, m) <==> ReportedAt(q, root, m, at)
  {
    hide Selected, Segment, PartFor, StepAt, DottedPath;
    Literals();
    if InTree(root, at) {
      SelectedIff(q, root, 1, root.name, at);
      forall k | 0 <= k < |at|
        ensures StepAt(q, root, 1, root.name, at, k)
           <==> GoesOn(q, root, at[..k]) && NameMatches(Names(root, at)[k + 1], PartFor(q.path, k + 2))
      {
        RootStep(q, root, at, k);
      }
      var names := Names(root, at);
      if Wanted(q, root, at, m) {
        forall k | 0 <= k < |at| ensures StepAt(q, root, 1, root.name, at, k) {
          assert names[k + 1] == PartFor(q.path, k + 2) || PartFor(q.path, k + 2) == WILDCARD;
        }
      }
      if ReportedAt(q, root, m, at) {
        forall k | 1 <= k < |names| ensures names[k] == PartFor(q.path, k + 1) || PartFor(q.path, k + 1) == WILDCARD {
          assert StepAt(q, root, 1, root.name, at, k - 1);
        }
      }
    }
  }

  lemma {:induction false} RootStep(q: Query, root: Node, at: Address, k: nat)
    requires InTree(root, at) && k < |at|
    ensures StepAt(q, root, 1, root.name, at, k)
       <==> GoesOn(q, root, at[..k]) && NameMatches(Names(root, at)[k + 1], PartFor(q.path, k + 2))
  {
    hide Segment, PartFor, NameMatches;
    Above(root, at, k);
    PathAtDotted(root, at[..k], []);
    assert [] + root.name == root.name && [] + DottedPath(root, at[..k]) == DottedPath(root, at[..k]);
    PartIsSegment(q.path, k + 2);
  }

  /** For every pattern: the expected list holds exactly the wanted nodes. */
  lemma {:induction false} ExpectedIffWanted(q: Query, root: Node, m: Match)
    ensures m in Expected(q, root) <==> exists at :: Wanted(q, root, at, m)
  {
    hide Expected, ReportedAt, Wanted;
    ExpectedMeaning(q, root, m);
    if at :| ReportedAt(q, root, m, at) {
      WantedIff(q, root, at, m);
    }
    if at: Address :| Wanted(q, root, at, m) {
      WantedIff(q, root, at, m);
    }
  }

  // ----- order -----

  /** `a` comes before `b` when a tree is walked through from the top and from the first child on. */
  predicate Precedes(a: Address, b: Address)
    decreases |a|
  {
    b != [] && (a == [] || a[0] < b[0] || (a[0] == b[0] && Precedes(a[1..], b[1..])))
  }

  /** `ats` are the places of the matches `ms` below `n`, one behind the other. */
  ghost predicate PlacedAt(q: Query, n: Node, depth: nat, path: bytes, ms: seq<Match>, ats: seq<Address>)
    requires depth >= 1
  {
    && |ats| == |ms|
    && (forall i :: 0 <= i < |ms| ==> IsAt(q, n, depth, path, ms[i], ats[i]))
    && forall i, j :: 0 <= i < j < |ats| ==> Precedes(ats[i], ats[j])
  }

  lemma {:induction false} VisitPlaces(q: Query, n: Node, depth: nat, path: bytes) returns (ats: seq<Address>)
    requires depth >= 1
    ensures PlacedAt(q, n, depth, path, Visit(q, n, depth, path), ats)
    decreases n, 1
  {
    hide Segment, VisitChildren, IsAt;
    VisitShape(q, n, depth, path);
    var own: seq<Address> := if Reported(q, n) then [[]] else [];
    if Reported(q, n) {
      OwnPlace(q, n, depth, path);
    }
    if Stops(q, n, depth, path) {
      ats := own;
    } else {
      var below := ChildPlaces(q, n, depth, path, 0);
      assert n.children[0..] == n.children;
      ats := own + below;
    }
  }

  lemma OwnPlace(q: Query, n: Node, depth: nat, path: bytes)
    requires depth >= 1 && Reported(q, n)
    ensures IsAt(q, n, depth, path, Match(path, n), [])
  {
  }

  /** The places of the matches in the children from number `from` on. */
  lemma {:induction false} ChildPlaces(q: Query, n: Node, depth: nat, path: bytes, from: nat) returns (ats: seq<Address>)
    requires depth >= 1 && from <= |n.children| && !Stops(q, n, depth, path)
    ensures PlacedAt(q, n, depth, path, VisitChildren(q, n.children[from..], depth + 1, path), ats)
    ensures forall i :: 0 <= i < |ats| ==> ats[i] != [] && ats[i][0] >= from
    decreases n, 0, |n.children| - from
  {
    hide Segment, Visit, IsAt, Stops, Precedes;
    if from == |n.children| {
      ats := [];
    } else {
      var child := n.children[from];
      assert n.children[from..][0] == child && n.children[from..][1..] == n.children[from + 1..];
      ats := ChildPlaces(q, n, depth, path, from + 1);
      if NameMatches(child.name, Segment(q.path, depth + 1)) {
        var places := VisitPlaces(q, child, depth + 1, path + [DOT] + child.name);
        var first := FirstPlaces(q, n, depth, path, from, places);
        forall i, j | 0 <= i < |first| && 0 <= j < |ats| ensures Precedes(first[i], ats[j]) {
          SmallerFirst(first[i], ats[j]);
        }
        ats := first + ats;
      }
    }
  }

  lemma SmallerFirst(a: Address, b: Address)
    requires a != [] && b != [] && a[0] < b[0]
    ensures Precedes(a, b)
  {
  }

  lemma {:induction false} FirstPlaces(q: Query, n: Node, depth: nat, path: bytes, i: nat, places: seq<Address>) returns (ats: seq<Address>)
    requires depth >= 1 && i < |n.children| && !Stops(q, n, depth, path)
    requires NameMatches(n.children[i].name, Segment(q.path, depth + 1))
    requires var here := path + [DOT] + n.children[i].name;
             PlacedAt(q, n.children[i], depth + 1, here, Visit(q, n.children[i], depth + 1, here), places)
    ensures PlacedAt(q, n, depth, path, Visit(q, n.children[i], depth + 1, path + [DOT] + n.children[i].name), ats)
    ensures forall k :: 0 <= k < |ats| ==> ats[k] != [] && ats[k][0] == i
  {
    hide Segment, Visit, IsAt, Stops, Precedes, NameMatches;
    var ms := Visit(q, n.children[i], depth + 1, path + [DOT] + n.children[i].name);
    ats := Shifted(i, places);
    forall k | 0 <= k < |ms| ensures IsAt(q, n, depth, path, ms[k], ats[k]) {
      ChildPlace(q, n, depth, path, i, ms[k], places[k]);
    }
  }

  function Shifted(i: nat, ats: seq<Address>): (r: seq<Address>)
    ensures |r| == |ats| && forall k :: 0 <= k < |ats| ==> r[k] == [i] + ats[k]
    ensures forall j, k :: 0 <= j < |ats| && 0 <= k < |ats| && Precedes(ats[j], ats[k]) ==> Precedes(r[j], r[k])
  {
    var r := seq(|ats|, k requires 0 <= k < |ats| => [i] + ats[k]);
    assert forall k :: 0 <= k < |ats| ==> r[k][1..] == ats[k] && r[k][0] == i;
    r
  }

  lemma {:induction false} ChildPlace(q: Query, n: Node, depth: nat, path: bytes, i: nat, m: Match, at: Address)
    requires depth >= 1 && i < |n.children| && !Stops(q, n, depth, path)
    requires NameMatches(n.children[i].name, Segment(q.path, depth + 1))
    requires IsAt(q, n.children[i], depth + 1, path + [DOT] + n.children[i].name, m, at)
    ensures IsAt(q, n, depth, path, m, [i] + at)
  {
    hide Segment, NameMatches, Stops;
    assert ([i] + at)[1..] == at && ([i] + at)[0] == i;
  }

  /**
   The expected list is the list of the wanted nodes in the order of the tree, each place once.
   */
  lemma {:induction false} ExpectedInOrder(q: Query, root: Node) returns (ats: seq<Address>)
    ensures |ats| == |Expected(q, root)|
    ensures forall i :: 0 <= i < |ats| ==> Wanted(q, root, ats[i], Expected(q, root)[i])
    ensures forall i, j :: 0 <= i < j < |ats| ==> Precedes(ats[i], ats[j])
    ensures forall at, m :: Wanted(q, root, at, m) ==> m in Expected(q, root)
  {
    hide Visit, Wanted, Selected, PathAt, DottedPath;
    ats := VisitPlaces(q, root, 1, root.name);
    forall i | 0 <= i < |ats| ensures Wanted(q, root, ats[i], Expected(q, root)[i]) {
      PathAtDotted(root, ats[i], []);
      assert [] + root.name == root.name && [] + DottedPath(root, ats[i]) == DottedPath(root, ats[i]);
      WantedIff(q, root, ats[i], Expected(q, root)[i]);
    }
    forall at, m | Wanted(q, root, at, m) ensures m in Expected(q, root) {
      ExpectedIffWanted(q, root, m);
    }
  }

  // ----- what a search returns -----

  /** No part of the path is a star. */
  ghost predicate Starless(path: bytes) {
    forall level: nat :: level >= 1 ==> PartFor(path, level) != Ascii("*")
  }

  /**
   A path without a star: the search returns the nodes whose names, below the root, are exactly the
   path's parts, the last part repeating; the first 1499 of them in the order of the tree.
   */
  lemma {:induction false} StarlessSearch(q: Query, root: Node, m: Match)
    requires DotFree(root) && Starless(q.path) && |Search(q, root).matches| < 1499
    ensures m in Search(q, root).matches
       <==> exists at :: && Wanted(q, root, at, m)
                         && forall k :: 1 <= k < |Names(root, at)| ==> Names(root, at)[k] == PartFor(q.path, k + 1)
  {
    hide Search, Expected, Wanted, PartFor, Names;
    StarlessIsNoStar(q);
    SearchExact(q, root);
    ExpectedIffWanted(q, root, m);
    if at :| Wanted(q, root, at, m) {
      StarlessNames(q, root, at, m);
    }
  }

  lemma {:induction false} StarlessNames(q: Query, root: Node, at: Address, m: Match)
    requires Starless(q.path) && Wanted(q, root, at, m)
    ensures forall k :: 1 <= k < |Names(root, at)| ==> Names(root, at)[k] == PartFor(q.path, k + 1)
  {
    hide PartFor, Names;
    forall k | 1 <= k < |Names(root, at)| ensures Names(root, at)[k] == PartFor(q.path, k + 1) {
      assert PartFor(q.path, k + 1) != Ascii("*");
    }
  }

  lemma {:induction false} StarlessIsNoStar(q: Query)
    requires Starless(q.path)
    ensures NoStar(q)
  {
    hide Split;
    Literals();
    var parts := Split(StripLeadingDot(q.path));
    forall i | 0 <= i < |parts| ensures parts[i] != WILDCARD {
      assert PartFor(q.path, i + 1) == parts[i];
    }
  }

  /** The path ends in a star and has no other: `parts` are the parts before it. */
  ghost predicate EndsInStar(path: bytes, parts: seq<bytes>) {
    path != [] && path[0] != '.' as int && Split(path) == parts + [Ascii("*")] && Ascii("*") !in parts
  }

  /**
   A path with a star at the end only: the names are the path's parts as far as it goes, and free
   below. Without restrictions of scope the search returns all such nodes, in the order of the tree.
   */
  lemma {:induction false} LastStarSearch(q: Query, root: Node, parts: seq<bytes>, m: Match)
    requires DotFree(root) && EndsInStar(q.path, parts) && q.noScopeList == [] && |Expected(q, root)| < 1499
    ensures m in Search(q, root).matches
       <==> exists at :: WantedBelow(q, root, parts, at, m)
  {
    hide Search, Expected, Wanted, WantedBelow, OnlyLastStar, Split;
    OnlyStar(q, parts);
    SearchExact(q, root);
    ExpectedIffWanted(q, root, m);
    if at :| Wanted(q, root, at, m) {
      WantedBelowIff(q, root, parts, at, m);
    }
    if at :| WantedBelow(q, root, parts, at, m) {
      WantedBelowIff(q, root, parts, at, m);
    }
  }

  /** `m` is a node of the right type, with its path, named by the parts as far as they go, above the depth limit. */
  ghost predicate WantedBelow(q: Query, root: Node, parts: seq<bytes>, at: Address, m: Match) {
    && InTree(root, at) && m == Match(DottedPath(root, at), NodeAt(root, at))
    && (q.leafNodesOnly ==> m.node.nodeType != Ascii("branch"))
    && (forall k :: 1 <= k < |Names(root, at)| && k < |parts| ==> Names(root, at)[k] == parts[k])
    && !(1 <= q.maxDepth <= |at|)
  }

  lemma {:induction false} WantedBelowIff(q: Query, root: Node, parts: seq<bytes>, at: Address, m: Match)
    requires EndsInStar(q.path, parts) && q.noScopeList == []
    ensures Wanted(q, root, at, m) <==> WantedBelow(q, root, parts, at, m)
  {
    hide EndsInStar, PartFor, Names, DottedPath, NamedBy, Ascii;
    if InTree(root, at) {
      LastStarNames(q.path, parts, Names(root, at));
      forall k: nat | k < |at| ensures InTree(root, at[..k]) {
        Above(root, at, k);
      }
      if 1 <= q.maxDepth <= |at| {
        assert |at[..q.maxDepth - 1]| + 1 == q.maxDepth;
        assert !GoesOn(q, root, at[..q.maxDepth - 1]);
      }
    }
  }

  lemma OnlyStar(q: Query, parts: seq<bytes>)
    requires EndsInStar(q.path, parts)
    ensures OnlyLastStar(q)
  {
    Literals();
    hide Split, Ascii;
  }

  lemma {:induction false} LastStarNames(path: bytes, parts: seq<bytes>, names: seq<bytes>)
    requires EndsInStar(path, parts)
    ensures NamedBy(path, names) <==> forall k :: 1 <= k < |names| && k < |parts| ==> names[k] == parts[k]
  {
    forall level: nat | level >= 1
      ensures PartFor(path, level) == if level <= |parts| then parts[level - 1] else Ascii("*")
    {
    }
    hide PartFor, Ascii;
    if NamedBy(path, names) {
      forall k | 1 <= k < |names| && k < |parts| ensures names[k] == parts[k] {
        assert PartFor(path, k + 1) == parts[k] && parts[k] in parts;
      }
    }
  }
}
