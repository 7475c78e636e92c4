/** The expected list, described node by node instead of by recursion, and a search that misses it. */
module SearchMeaning {
  import opened ByteStrings
  import opened VssTree
  import opened PathSegments
  import opened AccessRights
  import opened TreeSearch
  import opened SearchInvariants
  import opened SearchCompleteness
  import opened SearchRetraction
  import opened SearchContext

  // ----- addresses -----

  /** A node of the tree, as the child numbers on the way to it. */
  type Address = seq<nat>

  predicate InTree(n: Node, at: Address)
    decreases |at|
  {
    at == [] || (at[0] < |n.children| && InTree(n.children[at[0]], at[1..]))
  }

  function NodeAt(n: Node, at: Address): Node
    requires InTree(n, at)
    decreases |at|
  {
    if at == [] then n else NodeAt(n.children[at[0]], at[1..])
  }

  /** The dotted names on the way. */
  function DottedPath(n: Node, at: Address): bytes
    requires InTree(n, at)
    decreases |at|
  {
    n.name + if at == [] then [] else [DOT] + DottedPath(n.children[at[0]], at[1..])
  }

  /**
   The node at address `at` below `n`, which lies at `depth` under `path`, is to be reported: no node
   before it ends the search, and every name on the way matches its segment.
   */
  predicate Selected(q: Query, n: Node, depth: int, path: bytes, at: Address)
    requires depth >= 1 && InTree(n, at)
    decreases |at|
  {
    if at == [] then Reported(q, n)
    else
      var child := n.children[at[0]];
      && !Stops(q, n, depth, path)
      && NameMatches(child.name, Segment(q.path, depth + 1))
      && Selected(q, child, depth + 1, path + [DOT] + child.name, at[1..])
  }

  /** The path of the node at `at`, when `n` itself has the path `path`. */
  function PathAt(n: Node, at: Address, path: bytes): bytes
    requires InTree(n, at)
    decreases |at|
  {
    if at == [] then path
    else PathAt(n.children[at[0]], at[1..], path + [DOT] + n.children[at[0]].name)
  }

  lemma {:induction false} PathAtDotted(n: Node, at: Address, prefix: bytes)
    requires InTree(n, at)
    ensures PathAt(n, at, prefix + n.name) == prefix + DottedPath(n, at)
    decreases |at|
  {
    if at != [] {
      var child := n.children[at[0]];
      PathAtDotted(child, at[1..], prefix + n.name + [DOT]);
      assert prefix + n.name + [DOT] + DottedPath(child, at[1..]) == prefix + DottedPath(n, at);
    }
  }

  ghost predicate IsAt(q: Query, n: Node, depth: int, path: bytes, m: Match, at: Address)
    requires depth >= 1
  {
    InTree(n, at) && Selected(q, n, depth, path, at) && m == Match(PathAt(n, at, path), NodeAt(n, at))
  }

  lemma {:induction false} FindAddress(q: Query, n: Node, depth: int, path: bytes, m: Match) returns (at: Address)
    requires depth >= 1 && m in Visit(q, n, depth, path)
    ensures IsAt(q, n, depth, path, m, at)
    decreases n, 0
  {
    hide Segment, VisitChildren;
    if Reported(q, n) && m == Match(path, n) {
      at := [];
    } else {
      var i := FindChild(q, n.children, depth + 1, path, m);
      var child := n.children[i];
      var below := FindAddress(q, child, depth + 1, path + [DOT] + child.name, m);
      at := [i] + below;
      assert at[1..] == below;
    }
  }

  lemma {:induction false} FindChild(q: Query, ns: seq<Node>, depth: int, parentPath: bytes, m: Match) returns (i: nat)
    requires depth >= 1 && m in VisitChildren(q, ns, depth, parentPath)
    ensures i < |ns| && NameMatches(ns[i].name, Segment(q.path, depth))
    ensures m in Visit(q, ns[i], depth, parentPath + [DOT] + ns[i].name)
    decreases |ns|
  {
    hide Segment, Visit;
    if NameMatches(ns[0].name, Segment(q.path, depth)) && m in Visit(q, ns[0], depth, parentPath + [DOT] + ns[0].name) {
      i := 0;
    } else {
      i := FindChild(q, ns[1..], depth, parentPath, m);
      i := i + 1;
    }
  }

  lemma {:induction false} AddressVisited(q: Query, n: Node, depth: int, path: bytes, m: Match, at: Address)
    requires depth >= 1 && IsAt(q, n, depth, path, m, at)
    ensures m in Visit(q, n, depth, path)
    decreases |at|
  {
    hide Segment, VisitChildren;
    if at != [] {
      var child := n.children[at[0]];
      AddressVisited(q, child, depth + 1, path + [DOT] + child.name, m, at[1..]);
      ChildVisited(q, n.children, depth + 1, path, m, at[0]);
    }
  }

  lemma {:induction false} ChildVisited(q: Query, ns: seq<Node>, depth: int, parentPath: bytes, m: Match, i: nat)
    requires depth >= 1 && i < |ns| && NameMatches(ns[i].name, Segment(q.path, depth))
    requires m in Visit(q, ns[i], depth, parentPath + [DOT] + ns[i].name)
    ensures m in VisitChildren(q, ns, depth, parentPath)
    decreases |ns|
  {
    hide Segment, Visit;
    if i > 0 {
      ChildVisited(q, ns[1..], depth, parentPath, m, i - 1);
    }
  }

  /** `m` is the selected node at `at`, under its dotted path. */
  ghost predicate ReportedAt(q: Query, root: Node, m: Match, at: Address) {
    InTree(root, at) && Selected(q, root, 1, root.name, at) && m == Match(DottedPath(root, at), NodeAt(root, at))
  }

  /** The expected list holds exactly the selected nodes of the tree, each under its dotted path. */
  lemma {:induction false} ExpectedMeaning(q: Query, root: Node, m: Match)
    ensures m in Expected(q, root) <==> exists at :: ReportedAt(q, root, m, at)
  {
    hide Visit, Selected, Segment, PathAt, DottedPath;
    assert [] + root.name == root.name;
    if m in Expected(q, root) {
      var at := FindAddress(q, root, 1, root.name, m);
      PathAtDotted(root, at, []);
      assert [] + DottedPath(root, at) == DottedPath(root, at);
      assert ReportedAt(q, root, m, at);
    }
    if at: Address :| ReportedAt(q, root, m, at) {
      PathAtDotted(root, at, []);
      assert [] + DottedPath(root, at) == DottedPath(root, at);
      AddressVisited(q, root, 1, root.name, m, at);
    }
  }

  // ----- overruns -----

  /** The search visits the node at `at`, reported or not, below more wildcards than there are slots. */
  ghost predicate TooDeep(q: Query, n: Node, depth: nat, path: bytes, at: Address)
    requires depth >= 1
  {
    InTree(n, at) && Selected(Everything(q), n, depth, path, at) && Stars(q, depth + |at|) > SPECULATION_SLOTS
  }

  lemma {:induction false} FindDeep(q: Query, n: Node, depth: nat, path: bytes) returns (at: Address)
    requires depth >= 1 && Deep(q, n, depth, path)
    ensures TooDeep(q, n, depth, path, at)
    decreases n, 0
  {
    hide Segment, DeepChildren;
    if Stars(q, depth) > SPECULATION_SLOTS {
      at := [];
    } else {
      var i, below := FindDeepChild(q, n.children, depth + 1, path);
      at := [i] + below;
      assert at[1..] == below;
    }
  }

  lemma {:induction false} FindDeepChild(q: Query, ns: seq<Node>, depth: nat, parentPath: bytes) returns (i: nat, below: Address)
    requires depth >= 1 && DeepChildren(q, ns, depth, parentPath)
    ensures i < |ns| && NameMatches(ns[i].name, Segment(q.path, depth))
    ensures TooDeep(q, ns[i], depth, parentPath + [DOT] + ns[i].name, below)
    decreases ns, 1
  {
    hide Segment, Deep, TooDeep;
    if NameMatches(ns[0].name, Segment(q.path, depth)) && Deep(q, ns[0], depth, parentPath + [DOT] + ns[0].name) {
      i := 0;
      below := FindDeep(q, ns[0], depth, parentPath + [DOT] + ns[0].name);
    } else {
      i, below := FindDeepChild(q, ns[1..], depth, parentPath);
      i := i + 1;
    }
  }

  lemma {:induction false} DeepAt(q: Query, n: Node, depth: nat, path: bytes, at: Address)
    requires depth >= 1 && TooDeep(q, n, depth, path, at)
    ensures Deep(q, n, depth, path)
    decreases |at|
  {
    hide Segment, DeepChildren;
    if at != [] {
      var child := n.children[at[0]];
      DeepAt(q, child, depth + 1, path + [DOT] + child.name, at[1..]);
      DeepChildAt(q, n.children, depth + 1, path, at[0]);
    }
  }

  lemma {:induction false} DeepChildAt(q: Query, ns: seq<Node>, depth: nat, parentPath: bytes, i: nat)
    requires depth >= 1 && i < |ns| && NameMatches(ns[i].name, Segment(q.path, depth))
    requires Deep(q, ns[i], depth, parentPath + [DOT] + ns[i].name)
    ensures DeepChildren(q, ns, depth, parentPath)
    decreases |ns|
  {
    hide Segment, Deep;
    if i > 0 {
      DeepChildAt(q, ns[1..], depth, parentPath, i - 1);
    }
  }

  /**
   For every pattern with fewer than 1499 nodes to report, the search stops with an index error if
   and only if it visits a node that lies below more than 20 wildcard segments.
   */
  lemma {:induction false} OverrunIff(q: Query, root: Node)
    requires DotFree(root) && |Expected(q, root)| < MAX_MATCHES
    ensures Search(q, root).fault <==> exists at :: TooDeep(q, root, 1, root.name, at)
  {
    hide Search, Expected, Deep, TooDeep;
    SearchFaultExact(q, root);
    if Deep(q, root, 1, root.name) {
      var at := FindDeep(q, root, 1, root.name);
      assert TooDeep(q, root, 1, root.name, at);
    }
    if at: Address :| TooDeep(q, root, 1, root.name, at) {
      DeepAt(q, root, 1, root.name, at);
    }
  }

  function PlainNode(name: bytes, nodeType: bytes, children: seq<Node>): Node {
    Node(name, nodeType, [], [], [], [], [], [], [], [], 0, children)
  }

  /** A tree of n nodes, each but the last with one child. */
  function Chain(n: nat): Node
    requires n >= 1
  {
    if n == 1 then PlainNode([0x41], [], []) else PlainNode([0x41], BRANCH, [Chain(n - 1)])
  }

  // "A.*"
  const ALL_OF_A: bytes := [0x41, DOT, STAR]

  lemma {:induction false} ChainShape(n: nat)
    requires n >= 1
    ensures DotFree(Chain(n)) && Height(Chain(n)) == n
  {
    if n > 1 {
      ChainShape(n - 1);
      assert Chain(n).children[1..] == [];
      assert ForestHeight([Chain(n - 1)]) == Max(Height(Chain(n - 1)), 0);
    }
  }

  /** Only the last node of a chain is a leaf. */
  lemma {:induction false} ChainVisit(q: Query, n: nat, depth: nat, path: bytes)
    requires n >= 1 && depth >= 1 && q.leafNodesOnly
    ensures |Visit(q, Chain(n), depth, path)| <= 1
    decreases n
  {
    hide Segment;
    if n > 1 {
      var child := Chain(n - 1);
      assert Chain(n).children[1..] == [];
      ChainVisit(q, n - 1, depth + 1, path + [DOT] + child.name);
      assert |VisitChildren(q, [child], depth + 1, path)| <= 1;
    }
  }

  lemma {:induction false} AllOfASegments()
    ensures OnlyLastStar(MakeQuery(ALL_OF_A, true, true, [])) && SegmentCount(MakeQuery(ALL_OF_A, true, true, [])) == 2
  {
    var p := ALL_OF_A;
    assert IndexDot(p) == 1 && p[2..] == [STAR] && p[..1] == [0x41];
    assert IndexDot([STAR]) == -1;
    assert Split([STAR]) == [[STAR]];
    assert Split(p) == [[0x41]] + [[STAR]];
    SplitCount(p);
  }

  /** A search for everything below the root of a chain overruns from 22 nodes on. */
  lemma {:induction false} ChainOverruns(n: nat)
    requires 1 <= n <= 100
    ensures Search(MakeQuery(ALL_OF_A, true, true, []), Chain(n)).fault <==> n >= 22
  {
    hide Search, Visit, OnlyLastStar, Chain;
    var q := MakeQuery(ALL_OF_A, true, true, []);
    AllOfASegments();
    ChainShape(n);
    ChainVisit(q, n, 1, Chain(n).name);
    WildcardDepthLimit(q, Chain(n));
  }

  // ----- a wildcard in the middle -----

  // A { X { C }, Y { D } }
  const LEAF_C := PlainNode([0x43], [], [])
  const LEAF_D := PlainNode([0x44], [], [])
  const NODE_X := PlainNode([0x58], BRANCH, [LEAF_C])
  const NODE_Y := PlainNode([0x59], BRANCH, [LEAF_D])
  const SAMPLE := PlainNode([0x41], BRANCH, [NODE_X, NODE_Y])

  // "A.*.C"
  const MID_STAR := Query([0x41, DOT, STAR, DOT, 0x43], 100, true, [])

  lemma {:induction false} MidStarSegments()
    ensures Segment(MID_STAR.path, 1) == [0x41] && Segment(MID_STAR.path, 2) == WILDCARD
    ensures Segment(MID_STAR.path, 3) == [0x43] && Segment(MID_STAR.path, 4) == [0x43]
    ensures SegmentCount(MID_STAR) == 3
  {
    var p := MID_STAR.path;
    assert IndexDot(p) == 1 && p[2..] == [STAR, DOT, 0x43];
    assert IndexDot(p[2..]) == 1 && p[2..][2..] == [0x43];
    assert IndexDot([0x43]) == -1;
    assert Split([0x43]) == [[0x43]];
    assert p[2..][..1] == WILDCARD && p[..1] == [0x41];
    assert Split(p[2..]) == [WILDCARD] + [[0x43]];
    assert Split(p) == [[0x41]] + [WILDCARD, [0x43]];
    assert Split(p) == [[0x41], WILDCARD, [0x43]];
    SplitCount(p);
  }

  lemma {:induction false} LookAtC(c: Ctx)
    requires c.depth == 2 && c.speculationIndex == 0 && c.matches == [] && |c.speculativeMatches| == SPECULATION_SLOTS
    requires c.speculativeMatches[0] == 0
    ensures var r := TraverseNode(MID_STAR, c, LEAF_C);
            && r.1 == 1 && |r.0.matches| == 1 && r.0.speculationIndex == 0
            && r.0.speculativeMatches == c.speculativeMatches[0 := 1]
  {
    hide Segment, PopSegment, PushSegment, SearchMax;
    MidStarSegments();
  }

  lemma {:induction false} OneChild(q: Query, c: Ctx, n: Node, segment: bytes)
    requires c.depth >= 1
    ensures TraverseChildren(q, c, [n], segment) == if NameMatches(n.name, segment) then TraverseNode(q, c, n) else (c, 0)
  {
    hide TraverseNode;
    assert [n][1..] == [];
  }

  lemma {:induction false} TwoChildren(q: Query, c: Ctx, m: Node, n: Node)
    requires c.depth >= 1
    ensures TraverseChildren(q, c, [m, n], WILDCARD).0 == TraverseNode(q, TraverseNode(q, c, m).0, n).0
  {
    hide TraverseNode;
    assert [m, n][1..] == [n];
    OneChild(q, TraverseNode(q, c, m).0, n, WILDCARD);
  }

  lemma {:induction false} LookAtX(c: Ctx)
    requires c.depth == 1 && c.speculationIndex == -1 && c.matches == [] && |c.speculativeMatches| == SPECULATION_SLOTS
    requires c.speculativeMatches[0] == 0
    ensures var r := TraverseNode(MID_STAR, c, NODE_X);
            && |r.0.matches| == 1 && r.0.speculationIndex == -1
            && r.0.speculativeMatches == c.speculativeMatches[0 := 1]
  {
    hide Segment, PopSegment, PushSegment, SearchMax, TraverseChildren;
    MidStarSegments();
    var c2 := SaveMatchingNode(MID_STAR, IncDepth(c, NODE_X), NODE_X);
    OneChild(MID_STAR, c2, LEAF_C, [0x43]);
    LookAtC(c2);
  }

  lemma {:induction false} LookAtY(c: Ctx)
    requires c.depth == 1 && c.speculationIndex == -1 && |c.matches| == 1 && |c.speculativeMatches| == SPECULATION_SLOTS
    requires c.speculativeMatches[0] == 1
    ensures TraverseNode(MID_STAR, c, NODE_Y).0.matches == []
  {
    hide Segment, PopSegment, PushSegment, SearchMax, TraverseChildren;
    MidStarSegments();
    var c2 := SaveMatchingNode(MID_STAR, IncDepth(c, NODE_Y), NODE_Y);
    OneChild(MID_STAR, c2, LEAF_D, [0x43]);
    assert LEAF_D.name[0] != [0x43][0] && WILDCARD[0] != [0x43][0];
  }

  /**
   "A.*.C" on the sample tree: A.X.C is the one node to report, but the failed look into Y takes it
   back and the search returns nothing.
   */
  lemma {:induction false} MidStarLosesMatch()
    ensures Expected(MID_STAR, SAMPLE) == [Match([0x41, DOT, 0x58, DOT, 0x43], LEAF_C)]
    ensures Search(MID_STAR, SAMPLE).matches == []
  {
    hide Segment, PopSegment, PushSegment, SearchMax, TraverseChildren;
    MidStarSegments();
    MidStarExpected();
    var c2 := SaveMatchingNode(MID_STAR, IncDepth(StartCtx(), SAMPLE), SAMPLE);
    LookAtX(c2);
    LookAtY(TraverseNode(MID_STAR, c2, NODE_X).0);
    TwoChildren(MID_STAR, c2, NODE_X, NODE_Y);
  }

  lemma {:induction false} MidStarExpected()
    ensures Expected(MID_STAR, SAMPLE) == [Match([0x41, DOT, 0x58, DOT, 0x43], LEAF_C)]
  {
    hide Segment, Visit;
    MidStarSegments();
    var found := [Match([0x41, DOT, 0x58, DOT, 0x43], LEAF_C)];
    assert [0x41] + [DOT] + NODE_X.name == [0x41, DOT, 0x58] && [0x41] + [DOT] + NODE_Y.name == [0x41, DOT, 0x59];
    assert SAMPLE.children[1..] == [NODE_Y] && [NODE_Y][1..] == [];
    VisitBelowX();
    VisitBelowY();
    assert VisitChildren(MID_STAR, [NODE_Y], 2, [0x41]) == [];
    assert VisitChildren(MID_STAR, SAMPLE.children, 2, [0x41]) == found + [];
    VisitRoot();
  }

  lemma {:induction false} VisitRoot()
    ensures Expected(MID_STAR, SAMPLE) == [] + VisitChildren(MID_STAR, SAMPLE.children, 2, [0x41])
  {
    hide VisitChildren;
  }

  lemma {:induction false} VisitBelowX()
    ensures Visit(MID_STAR, NODE_X, 2, [0x41, DOT, 0x58]) == [Match([0x41, DOT, 0x58, DOT, 0x43], LEAF_C)]
  {
    hide Segment;
    MidStarSegments();
    var pathX: bytes := [0x41, DOT, 0x58];
    assert pathX + [DOT] + LEAF_C.name == [0x41, DOT, 0x58, DOT, 0x43];
    assert NODE_X.children[1..] == [];
    assert Visit(MID_STAR, LEAF_C, 3, pathX + [DOT] + LEAF_C.name) == [Match([0x41, DOT, 0x58, DOT, 0x43], LEAF_C)] + [];
    assert VisitChildren(MID_STAR, NODE_X.children, 3, pathX) == [Match([0x41, DOT, 0x58, DOT, 0x43], LEAF_C)] + [];
  }

  lemma {:induction false} VisitBelowY()
    ensures Visit(MID_STAR, NODE_Y, 2, [0x41, DOT, 0x59]) == []
  {
    hide Segment;
    MidStarSegments();
    assert NODE_Y.children[1..] == [] && LEAF_D.name[0] != [0x43][0];
    assert VisitChildren(MID_STAR, NODE_Y.children, 3, [0x41, DOT, 0x59]) == [];
  }
}
