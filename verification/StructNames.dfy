/**
 Struct values judged by the names of the type tree's nodes: in trees of dot-free names, the last
 segment of a found path is the name of the node found there.
 */
module StructNames {
  import opened ByteStrings
  import opened VssTree
  import opened PathSegments
  import opened TreeSearch
  import opened SearchInvariants
  import opened SearchCompleteness
  import opened SearchContext
  import opened SearchMeaning
  import opened SearchNames
  import opened Forest
  import opened StructCheck

  ghost predicate DotFreeForest(forest: seq<HimTree>) {
    forall i :: 0 <= i < |forest| ==> DotFree(forest[i].handle)
  }

  // ----- the last segment of a path is the node's name -----

  lemma {:induction false} AfterLastDot(prefix: bytes, name: bytes)
    requires DOT !in name && (prefix == [] || prefix[|prefix| - 1] == DOT)
    ensures LastSegment(prefix + name) == name
  {
    hide LastIndexDot;
    var full := prefix + name;
    forall j | |prefix| <= j < |full| ensures full[j] != DOT {
      assert full[j] == name[j - |prefix|];
    }
    assert prefix != [] ==> full[|prefix| - 1] == DOT;
    assert LastIndexDot(full) == |prefix| - 1;
    assert full[|prefix|..] == name;
  }

  lemma {:induction false} LastName(n: Node, at: Address, prefix: bytes)
    requires DotFree(n) && InTree(n, at) && (prefix == [] || prefix[|prefix| - 1] == DOT)
    ensures LastSegment(prefix + DottedPath(n, at)) == NodeAt(n, at).name
    decreases |at|
  {
    hide LastSegment;
    if at == [] {
      assert DottedPath(n, at) == n.name;
      AfterLastDot(prefix, n.name);
    } else {
      var child := n.children[at[0]];
      LastName(child, at[1..], prefix + n.name + [DOT]);
      assert prefix + n.name + [DOT] + DottedPath(child, at[1..]) == prefix + DottedPath(n, at);
    }
  }

  /** Every leaf found below a type is found under a path that ends in its name. */
  lemma {:induction false} FoundName(root: Node, typePath: bytes, m: Match)
    requires DotFree(root) && m in TypeNodes(root, typePath)
    ensures LastSegment(m.path) == m.node.name
  {
    hide Search, Expected, Subsequence, LastSegment, DottedPath, Selected, Split;
    TypeNodesExact(root, typePath);
    var q := MakeQuery(typePath + ALL_BELOW, true, true, []);
    SubsequenceMember(TypeNodes(root, typePath), Expected(q, root), m);
    ExpectedMeaning(q, root, m);
    var at :| ReportedAt(q, root, m, at);
    LastName(root, at, []);
    assert [] + DottedPath(root, at) == DottedPath(root, at);
  }

  ghost predicate NamesAreLast(nodes: seq<Match>) {
    forall k :: 0 <= k < |nodes| ==> LastSegment(nodes[k].path) == nodes[k].node.name
  }

  /** A member name is known exactly if a node has it, case aside. */
  lemma {:induction false} KnownByName(p: Platform, nodes: seq<Match>, name: bytes)
    requires NamesAreLast(nodes)
    ensures Known(p, nodes, name)
       <==> exists k :: 0 <= k < |nodes| && p.toLower(name) == p.toLower(nodes[k].node.name)
  {
    hide LastSegment, Lists;
    if Known(p, nodes, name) {
      var k :| 0 <= k < |nodes| && IsNamed(p, nodes[k], name);
      assert p.toLower(name) == p.toLower(nodes[k].node.name);
    }
    if k :| 0 <= k < |nodes| && p.toLower(name) == p.toLower(nodes[k].node.name) {
      assert IsNamed(p, nodes[k], name);
    }
  }

  /** The node chosen for a member: the first whose name folds to the member's, or else the first of all. */
  ghost predicate IsChosen(p: Platform, nodes: seq<Match>, name: bytes, k: nat) {
    && k < |nodes|
    && if exists j :: 0 <= j < |nodes| && p.equalFold(nodes[j].node.name, name)
       then p.equalFold(nodes[k].node.name, name) && forall j :: 0 <= j < k ==> !p.equalFold(nodes[j].node.name, name)
       else k == 0
  }

  lemma {:induction false} ChosenByName(p: Platform, nodes: seq<Match>, name: bytes, k: nat)
    requires nodes != [] && NamesAreLast(nodes)
    ensures IsChosen(p, nodes, name, k) <==> k == IndexFor(p, nodes, name)
  {
    hide LastSegment, IndexFor, Lists;
    var i := IndexFor(p, nodes, name);
    forall j | 0 <= j < |nodes| ensures Folds(p, nodes[j], name) == p.equalFold(nodes[j].node.name, name) {
    }
  }

  // ----- conforming values -----

  /** A single struct: the type's text begins with "Types" and does not end in brackets. */
  ghost predicate IsStructType(dataType: bytes) {
    && (exists rest :: dataType == Ascii("Types") + rest)
    && !exists front :: dataType == front + Ascii("[]")
  }

  /**
   Every member has the name of a leaf found below the type, case aside. An object conforms in turn to
   the type of the leaf chosen for it; any other value stands where the type is no single struct.
   */
  ghost predicate Fits(p: Platform, forest: seq<HimTree>, value: Json, typePath: bytes)
    requires value.Object?
    decreases value, 0
  {
    && RootOf(forest, typePath).Some?
    && var root := RootOf(forest, typePath).value;
    && !Overruns(root, typePath + Ascii(".*"))
    && var nodes := SearchTree(root, typePath + Ascii(".*")).0;
    && nodes != []
    && forall name :: name in value.members ==> MemberFits(p, forest, name, value.members[name], nodes)
  }

  ghost predicate MemberFits(p: Platform, forest: seq<HimTree>, name: bytes, member: Json, nodes: seq<Match>)
    decreases member, 1
  {
    && (exists k :: 0 <= k < |nodes| && p.toLower(name) == p.toLower(nodes[k].node.name))
    && exists k: nat ::
         && IsChosen(p, nodes, name, k)
         && if member.Object? then Fits(p, forest, member, nodes[k].node.dataType) else !IsStructType(nodes[k].node.dataType)
  }

  lemma {:induction false} StructTypeIff(dataType: bytes)
    ensures IsStructType(dataType) <==> IsStructMemberType(dataType)
  {
    var types, brackets := Ascii("Types"), Ascii("[]");
    hide Ascii;
    if HasPrefix(dataType, types) {
      assert dataType == types + dataType[|types|..];
    }
    if rest :| dataType == types + rest {
      assert dataType[..|types|] == types;
    }
    if HasSuffix(dataType, brackets) {
      assert dataType == dataType[..|dataType| - |brackets|] + brackets;
    }
    if front :| dataType == front + brackets {
      assert dataType[|dataType| - |brackets|..] == brackets;
    }
  }

  lemma AllBelowText()
    ensures Ascii(".*") == ALL_BELOW
  {
  }

  lemma {:induction false} ConformsByName(p: Platform, forest: seq<HimTree>, value: Json, typePath: bytes)
    requires value.Object? && DotFreeForest(forest)
    ensures Conforms(p, forest, value, typePath) <==> Fits(p, forest, value, typePath)
    decreases value, 0
  {
    hide RootOf, Overruns, SearchTree, MemberConforms, MemberFits, Ascii, DotFree, LastSegment, Lists;
    AllBelowText();
    if RootOf(forest, typePath).Some? {
      var root := RootOf(forest, typePath).value;
      var nodes := TypeNodes(root, typePath);
      forall m | m in nodes ensures LastSegment(m.path) == m.node.name {
        FoundName(root, typePath, m);
      }
      if nodes != [] {
        forall name | name in value.members
          ensures MemberConforms(p, forest, name, value.members[name], nodes) <==> MemberFits(p, forest, name, value.members[name], nodes)
        {
          MemberByName(p, forest, name, value.members[name], nodes);
        }
      }
    }
  }

  lemma {:induction false} MemberByName(p: Platform, forest: seq<HimTree>, name: bytes, member: Json, nodes: seq<Match>)
    requires nodes != [] && NamesAreLast(nodes) && DotFreeForest(forest)
    ensures MemberConforms(p, forest, name, member, nodes) <==> MemberFits(p, forest, name, member, nodes)
    decreases member, 1
  {
    hide Known, IndexFor, IsChosen, Conforms, Fits, IsStructMemberType, IsStructType, NamesAreLast, DotFreeForest, Lists;
    KnownByName(p, nodes, name);
    var i := IndexFor(p, nodes, name);
    forall k: nat ensures IsChosen(p, nodes, name, k) <==> k == i {
      ChosenByName(p, nodes, name, k);
    }
    StructTypeIff(nodes[i].node.dataType);
    if member.Object? {
      ConformsByName(p, forest, member, nodes[i].node.dataType);
    }
  }

  /**
   Over type trees of dot-free names the check accepts exactly the values that fit by the names of the
   nodes, of at most six objects inside one another.
   */
  lemma {:induction false} VerifyByName(p: Platform, forest: seq<HimTree>, value: map<bytes, Json>, typePath: bytes)
    requires DotFreeForest(forest)
    ensures VerifyStruct(p, forest, value, typePath, 0) == Ok
       <==> Fits(p, forest, Object(value), typePath) && NestedAtMost(Object(value), 6)
  {
    hide VerifyStruct, Conforms, Fits, NestedAtMost, DotFreeForest;
    VerifyIff(p, forest, value, typePath, 0);
    ConformsByName(p, forest, Object(value), typePath);
  }
}
