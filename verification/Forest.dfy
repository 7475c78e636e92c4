/** The trees the server manages, and path resolution over them. */
module Forest {
  import opened ByteStrings
  import opened VssTree
  import opened PathSegments
  import opened AccessRights
  import opened TreeSearch
  import opened SearchInvariants
  import opened SearchCompleteness
  import opened SearchContext

  /** A decoded JSON value. */
  datatype Json =
    | Null
    | Bool(flag: bool)
    | Number(digits: bytes)
    | String(text: bytes)
    | Array(items: seq<Json>)
    | Object(members: map<bytes, Json>)

  datatype HimTree = HimTree(rootName: bytes, handle: Node, domain: bytes)

  /**
   Trees the search can handle: names without dots, and at most one level more than there are
   speculation slots, so that no pattern that starts with the tree's own name can overrun them.
   */
  ghost predicate Searchable(forest: seq<HimTree>) {
    forall i :: 0 <= i < |forest| ==>
      && DotFree(forest[i].handle) && Height(forest[i].handle) <= SPECULATION_SLOTS + 1
      && forest[i].rootName != [] && forest[i].rootName != WILDCARD
  }

  /** The path up to its first dot. */
  function RootNameOf(path: bytes): bytes {
    var d := IndexDot(path);
    if d == -1 then path else path[..d]
  }

  /** The first tree whose name is the path's first segment. */
  function RootOf(forest: seq<HimTree>, path: bytes): (r: Option<Node>)
    ensures r.Some? ==> exists i :: 0 <= i < |forest| && forest[i].handle == r.value && forest[i].rootName == RootNameOf(path)
    ensures r.None? ==> forall i :: 0 <= i < |forest| ==> forest[i].rootName != RootNameOf(path)
  {
    if forest == [] then None
    else if forest[0].rootName == RootNameOf(path) then Some(forest[0].handle)
    else
      var r := RootOf(forest[1..], path);
      assert forall i :: 0 <= i < |forest[1..]| ==> forest[1..][i] == forest[i + 1];
      assert r.None? ==> forall i :: 0 <= i < |forest| ==> forest[i].rootName != RootNameOf(path) by {
        forall i | r.None? && 0 <= i < |forest|
          ensures forest[i].rootName != RootNameOf(path)
        {
          if i > 0 { assert forest[i] == forest[1..][i - 1]; }
        }
      }
      r
  }

  /** Tree `i` is the first of this name. */
  ghost predicate FirstNamed(forest: seq<HimTree>, name: bytes, i: nat) {
    i < |forest| && forest[i].rootName == name && forall j :: 0 <= j < i ==> forest[j].rootName != name
  }

  /** The name looked for is the first part of the path, and the tree found is the first that has it. */
  lemma {:induction false} RootIsFirst(forest: seq<HimTree>, path: bytes) returns (i: nat)
    requires RootOf(forest, path).Some?
    ensures RootNameOf(path) == Split(path)[0]
    ensures FirstNamed(forest, Split(path)[0], i) && forest[i].handle == RootOf(forest, path).value
  {
    FirstPart(path);
    hide RootNameOf, Split;
    if forest[0].rootName == RootNameOf(path) {
      i := 0;
    } else {
      i := RootIsFirst(forest[1..], path);
      assert forall j :: 1 <= j <= i + 1 ==> forest[j] == forest[1..][j - 1];
      i := i + 1;
    }
  }

  lemma FirstPart(path: bytes)
    ensures RootNameOf(path) == Split(path)[0]
  {
    hide IndexDot;
  }

  method SetRootNodePointer(forest: seq<HimTree>, path: bytes) returns (r: Option<Node>)
    ensures r == RootOf(forest, path)
  {
    var name := RootNameOf(path);
    var i := 0;
    assert forest[0..] == forest;
    while i < |forest|
      invariant 0 <= i <= |forest|
      invariant RootOf(forest, path) == RootOf(forest[i..], path)
    {
      if forest[i].rootName == name {
        return Some(forest[i].handle);
      }
      assert forest[i..][1..] == forest[i + 1..];
      i := i + 1;
    }
    return None;
  }

  lemma {:induction false} StarsBounded(q: Query, d: nat)
    requires d >= 1 && Segment(q.path, 1) != WILDCARD
    ensures Stars(q, d) <= d - 1
  {
    hide Segment;
    if d > 1 {
      StarsBounded(q, d - 1);
    }
  }

  /** Matches and access requirement of a leaf search at any depth; nothing for an empty path. */
  function SearchTree(root: Node, path: bytes): (seq<Match>, Level) {
    if path == [] then ([], 0)
    else
      var c := Search(MakeQuery(path, true, true, []), root);
      (c.matches, c.maxValidation)
  }

  /** The search stops with an index error. */
  predicate Overruns(root: Node, path: bytes) {
    path != [] && Search(MakeQuery(path, true, true, []), root).fault
  }

  /** The search for the root of a subtree and everything below it, of all node types. */
  function SubTreeQuery(path: bytes, noScopeList: seq<bytes>): Query {
    MakeQuery(path + ALL_BELOW, true, false, noScopeList)
  }

  predicate SubTreeOverruns(root: Node, path: bytes, noScopeList: seq<bytes>) {
    Search(SubTreeQuery(path, noScopeList), root).fault
  }

  /** The reported requirement covers every reported node. */
  lemma {:induction false} SearchTreeCovers(root: Node, path: bytes)
    ensures forall m :: m in SearchTree(root, path).0 ==> Below(LevelOf(m.node.validate), SearchTree(root, path).1)
  {
    hide Search, Below, LevelOf;
    if path != [] {
      SearchCovers(MakeQuery(path, true, true, []), root);
    }
  }

  lemma {:induction false} FirstSegmentIsRootName(path: bytes, suffix: bytes)
    requires RootNameOf(path) != [] && (suffix == [] || suffix[0] == DOT)
    ensures Segment(path + suffix, 1) == RootNameOf(path)
  {
    hide IndexDot;
    var full := path + suffix;
    assert path[0] != DOT;
    NthOfSplit(full, 1);
    var d, e := IndexDot(path), IndexDot(full);
    if d >= 0 {
      assert full[d] == path[d];
      assert e == d;
    } else if suffix != [] {
      assert full[|path|] == DOT;
      assert e == |path|;
    }
    assert full[..|path|] == path;
  }

  lemma {:induction false} QueryFits(forest: seq<HimTree>, path: bytes, suffix: bytes, q: Query)
    requires Searchable(forest) && RootOf(forest, path).Some? && (suffix == [] || suffix[0] == DOT) && q.path == path + suffix
    ensures !Search(q, RootOf(forest, path).value).fault
  {
    hide Segment, DotFree, RootOf, RootNameOf, Search;
    var i :| 0 <= i < |forest| && forest[i].handle == RootOf(forest, path).value && forest[i].rootName == RootNameOf(path);
    FirstSegmentIsRootName(path, suffix);
    HeightPositive(forest[i].handle);
    StarsBounded(q, Height(forest[i].handle));
    SearchSound(q, forest[i].handle);
  }

  /** Nothing searched for below a searchable root's own name overruns. */
  lemma {:induction false} RootFits(forest: seq<HimTree>, path: bytes, suffix: bytes)
    requires Searchable(forest) && RootOf(forest, path).Some? && (suffix == [] || suffix[0] == DOT)
    ensures !Overruns(RootOf(forest, path).value, path + suffix)
    ensures forall ns :: !SubTreeOverruns(RootOf(forest, path).value, path, ns)
  {
    hide RootOf, Search, Searchable;
    QueryFits(forest, path, suffix, MakeQuery(path + suffix, true, true, []));
    forall ns ensures !SubTreeOverruns(RootOf(forest, path).value, path, ns) {
      QueryFits(forest, path, ALL_BELOW, SubTreeQuery(path, ns));
    }
  }

  lemma HeightPositive(n: Node)
    ensures Height(n) >= 1
  {
  }

  /** The search panics exactly if it overruns; otherwise it finds what is specified. */
  method RunSearchTree(root: Node, path: bytes) returns (panicked: bool, matches: seq<Match>, validation: Level)
    ensures panicked <==> Overruns(root, path)
    ensures !panicked ==> (matches, validation) == SearchTree(root, path)
  {
    hide Search, FoundBy;
    if path == [] {
      return false, [], 0;
    }
    panicked, matches, validation := VssSearchNodes(path, root, MAXFOUNDNODES, true, true, []);
  }
}
