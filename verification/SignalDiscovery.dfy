/** The metadata of a subtree: finding its root by a search for everything below it, and printing it. */
module SignalDiscovery {
  import opened ByteStrings
  import opened VssTree
  import opened PathSegments
  import opened TreeSearch
  import opened SearchInvariants
  import opened SearchCompleteness
  import opened SearchContext
  import opened SearchMeaning
  import opened SearchNames
  import Forest
  import JsonText
  import JsonTree
  import MetadataTexts

  /** The first match under the path. */
  method GetSubTreeNodeHandle(path: bytes, matches: seq<Match>) returns (handle: Option<Node>)
    ensures handle == None <==> forall m :: m in matches ==> m.path != path
    ensures handle.Some? ==>
              exists k | 0 <= k < |matches| ::
                matches[k] == Match(path, handle.value) && forall j :: 0 <= j < k ==> matches[j].path != path
  {
    for i := 0 to |matches|
      invariant forall k :: 0 <= k < i ==> matches[k].path != path
    {
      if matches[i].path == path {
        return Some(matches[i].node);
      }
    }
    return None;
  }

  // ----- a node is found under its own path -----

  ghost predicate Segments(q: Query, names: seq<bytes>) {
    forall k :: 1 <= k <= |names| ==> Segment(q.path, k) == names[k - 1]
  }

  lemma {:induction false} NamesSelected(q: Query, n: Node, depth: nat, path: bytes, at: Address, names: seq<bytes>)
    requires depth >= 1 && InTree(n, at) && !q.leafNodesOnly && q.noScopeList == [] && |names| <= q.maxDepth
    requires |names| == depth + |at| && names[depth - 1..] == Names(n, at) && Segments(q, names)
    ensures Selected(q, n, depth, path, at)
    decreases |at|
  {
    hide Segment;
    if at != [] {
      var child := n.children[at[0]];
      assert names[depth..] == names[depth - 1..][1..] == Names(child, at[1..]);
      assert names[depth] == names[depth..][0] == child.name;
      NamesSelected(q, child, depth + 1, path + [DOT] + child.name, at[1..], names);
    }
  }

  predicate Plain(path: bytes) {
    path != [] && path[0] != DOT && WILDCARD !in Split(path)
  }

  ghost predicate HasPath(root: Node, path: bytes, at: Address) {
    InTree(root, at) && DottedPath(root, at) == path
  }

  lemma {:induction false} FoundUnderPath(root: Node, path: bytes, at: Address)
    requires DotFree(root) && Plain(path) && HasPath(root, path, at) && |at| < 100
    ensures Match(path, NodeAt(root, at)) in Expected(Forest.SubTreeQuery(path, []), root)
  {
    hide Split, IndexDot, Selected, Expected;
    var q := Forest.SubTreeQuery(path, []);
    var names := Names(root, at);
    DottedNames(root, at);
    assert path + ALL_BELOW == path + [DOT] + WILDCARD;
    SplitJoin(path, WILDCARD);
    assert names[0..] == names;
    NamesSelected(q, root, 1, root.name, at, names);
    var m := Match(path, NodeAt(root, at));
    ExpectedMeaning(q, root, m);
    assert ReportedAt(q, root, m, at);
  }

  /** The metadata is that of the node at `at`: it has the path, the search may reach it, all its levels are there. */
  ghost predicate Describes(q: Query, root: Node, path: bytes, depth: nat, json: JsonText.text, at: Address) {
    && InTree(root, at) && ReportedAt(q, root, Match(path, NodeAt(root, at)), at)
    && var node, levels := NodeAt(root, at), if depth == 0 then 100 else depth;
    && json == JsonText.Chars("{") + MetadataTexts.NodeText(node, levels) + JsonText.Chars("}")
    && (JsonTree.PlainTree(node) ==>
          JsonText.ReadValue(json) == Some((JsonText.Obj([(node.name, JsonTree.NodeTerm(node, levels))]), [])))
  }

  /**
   The metadata of the subtree at a path. It stops with an index error exactly if the search does. A
   non-empty answer describes a node with that path, and no node above it is out of scope; nodes below
   it are printed whether in scope or not. Without restrictions, every node above level 101 is found.
   */
  method SynthesizeJsonTree(path: bytes, depth: int, noScopeList: seq<bytes>, root: Node)
    returns (panicked: bool, json: JsonText.text)
    ensures var q := Forest.SubTreeQuery(path, noScopeList);
            && (panicked <==> Forest.SubTreeOverruns(root, path, noScopeList))
            && (DotFree(root) && !panicked && json != [] ==>
                  depth >= 0 && exists at :: Describes(q, root, path, depth, json, at))
            && (DotFree(root) && !panicked && depth >= 0 && Plain(path) && noScopeList == [] && |Expected(q, root)| < MAX_MATCHES ==>
                  forall at :: HasPath(root, path, at) && |at| < 100 ==> json != [])
  {
    hide Search, Expected, JsonText.ReadValue, JsonText.Put, JsonTree.NodeDoc, JsonTree.NodeTerm, JsonTree.PlainTree, MetadataTexts.NodeText, Split,
      Subsequence, OnlyLastStar;
    var q := Forest.SubTreeQuery(path, noScopeList);
    var broken, matches, _ := VssSearchNodes(path + ALL_BELOW, root, MAXFOUNDNODES, true, false, noScopeList);
    if broken {
      return true, [];
    }
    panicked := false;
    var subTreeRoot := GetSubTreeNodeHandle(path, matches);
    if DotFree(root) && Plain(path) && noScopeList == [] && |Expected(q, root)| < MAX_MATCHES {
      AllBelowIsLastStar(path, q);
      forall at | HasPath(root, path, at) && |at| < 100 ensures subTreeRoot.Some? {
        FoundUnderPath(root, path, at);
      }
    }
    if subTreeRoot == None {
      return false, [];
    }
    json := JsonTree.PrintSubTree(subTreeRoot.value, depth);
    if DotFree(root) && json != [] {
      var m := Match(path, subTreeRoot.value);
      SubsequenceMember(matches, Expected(q, root), m);
      ExpectedMeaning(q, root, m);
      MetadataTexts.SubTreeText(subTreeRoot.value, if depth == 0 then 100 else depth);
      ghost var at :| ReportedAt(q, root, m, at);
      assert Describes(q, root, path, depth, json, at);
    }
  }
}
