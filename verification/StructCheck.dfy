/** Verification of struct values in set requests against the type tree. */
module StructCheck {
  import opened ByteStrings
  import opened VssTree
  import opened PathSegments
  import opened TreeSearch
  import opened SearchInvariants
  import opened SearchCompleteness
  import opened SearchContext
  import opened Forest

  const MAX_NESTING := 5

  /** Every key of a map, each at least once and nothing else. */
  ghost predicate Lists(names: seq<bytes>, value: map<bytes, Json>) {
    forall name :: name in names <==> name in value
  }

  ghost function SomeList(value: map<bytes, Json>): (names: seq<bytes>)
    ensures Lists(names, value)
    decreases |value|
  {
    if value == map[] then []
    else
      var name :| name in value;
      [name] + SomeList(value - {name})
  }

  /** An order in which a loop over a map meets the members. */
  type RangeOrder = f: map<bytes, Json> -> seq<bytes> | forall value :: Lists(f(value), value)
    ghost witness (value: map<bytes, Json>) => SomeList(value)

  /** What the language leaves open: the order of map loops, and case folding. */
  datatype Platform = Platform(order: RangeOrder, toLower: bytes -> bytes, equalFold: (bytes, bytes) -> bool)

  /** The part of a path after its last dot. */
  function LastSegment(path: bytes): bytes {
    path[LastIndexDot(path) + 1..]
  }

  predicate HasPrefix(s: bytes, prefix: bytes) {
    |prefix| <= |s| && s[..|prefix|] == prefix
  }

  predicate HasSuffix(s: bytes, suffix: bytes) {
    |suffix| <= |s| && s[|s| - |suffix|..] == suffix
  }

  /** A single struct type: one of the type tree that is not an array. */
  predicate IsStructMemberType(dataType: bytes) {
    HasPrefix(dataType, Ascii("Types")) && !HasSuffix(dataType, Ascii("[]"))
  }

  predicate IsNamed(p: Platform, m: Match, name: bytes) {
    p.toLower(name) == p.toLower(LastSegment(m.path))
  }

  predicate Known(p: Platform, nodes: seq<Match>, name: bytes) {
    exists k :: 0 <= k < |nodes| && IsNamed(p, nodes[k], name)
  }

  predicate Folds(p: Platform, m: Match, name: bytes) {
    p.equalFold(LastSegment(m.path), name)
  }

  /** Index of the first node whose name folds to the member's name, or 0. */
  function IndexFor(p: Platform, nodes: seq<Match>, name: bytes): (i: nat)
    requires nodes != []
    ensures i < |nodes| && forall k :: 0 <= k < i ==> !Folds(p, nodes[k], name)
    ensures Folds(p, nodes[i], name) || (i == 0 && forall k :: 0 <= k < |nodes| ==> !Folds(p, nodes[k], name))
  {
    hide Folds;
    var i := IndexOf(FoldingNodes(p, nodes, name), true);
    if i < |nodes| then i else 0
  }

  function FoldingNodes(p: Platform, nodes: seq<Match>, name: bytes): (flags: seq<bool>)
    ensures |flags| == |nodes| && forall k :: 0 <= k < |nodes| ==> flags[k] == Folds(p, nodes[k], name)
  {
    seq(|nodes|, k requires 0 <= k < |nodes| => Folds(p, nodes[k], name))
  }

  /** `Broken` is the index error of a search. */
  datatype Verdict = Ok | Unverifiable | Incorrect | Broken

  /** The leaf nodes found below a type. */
  function TypeNodes(root: Node, typePath: bytes): seq<Match> {
    SearchTree(root, typePath + ALL_BELOW).0
  }

  // ----- the check, with its nesting counter -----

  function VerifyStruct(p: Platform, forest: seq<HimTree>, value: map<bytes, Json>, typePath: bytes, depth: nat): Verdict
    requires depth <= MAX_NESTING + 1
    decreases MAX_NESTING + 1 - depth, 2, 0
  {
    match RootOf(forest, typePath)
    case None => Unverifiable
    case Some(root) =>
      if depth > MAX_NESTING then Incorrect
      else if Overruns(root, typePath + ALL_BELOW) then Broken
      else
        var nodes := TypeNodes(root, typePath);
        if nodes == [] then Incorrect else VerifyMembers(p, forest, p.order(value), value, nodes, depth)
  }

  /** The first member that is not acceptable decides. */
  function VerifyMembers(p: Platform, forest: seq<HimTree>, names: seq<bytes>, value: map<bytes, Json>, nodes: seq<Match>, depth: nat): Verdict
    requires depth <= MAX_NESTING && nodes != [] && forall name :: name in names ==> name in value
    decreases MAX_NESTING + 1 - depth, 1, |names|
  {
    if names == [] then Ok
    else
      var first := VerifyMember(p, forest, names[0], value[names[0]], nodes, depth);
      if first == Ok then VerifyMembers(p, forest, names[1..], value, nodes, depth) else first
  }

  function VerifyMember(p: Platform, forest: seq<HimTree>, name: bytes, member: Json, nodes: seq<Match>, depth: nat): Verdict
    requires depth <= MAX_NESTING && nodes != []
    decreases MAX_NESTING + 1 - depth, 0, 0
  {
    if !Known(p, nodes, name) then Incorrect
    else
      var dataType := nodes[IndexFor(p, nodes, name)].node.dataType;
      if member.Object? then
        match VerifyStruct(p, forest, member.members, dataType, depth + 1)
        case Ok => Ok
        case Broken => Broken
        case _ => Incorrect
      else if IsStructMemberType(dataType) then Incorrect
      else Ok
  }

  datatype ValueCheck = Accepted | Rejected(message: string) | Panicked

  /** The check of a set value against the datatype of its node. */
  function ValidateStructSetValue(p: Platform, forest: seq<HimTree>, dataType: bytes, value: Json): ValueCheck {
    if !HasPrefix(dataType, Ascii("Types")) then Accepted
    else if !value.Object? then Rejected("struct value must be an object")
    else
      match VerifyStruct(p, forest, value.members, dataType, 0)
      case Ok => Accepted
      case Unverifiable => Rejected("Struct cannot be verified")
      case Incorrect => Rejected("Incorrect struct data")
      case Broken => Panicked
  }

  // ----- what acceptance means -----

  /**
   The type's nodes can be searched, every member's name occurs among them, objects conform to their
   member's type in turn, and members of struct type are objects. There is no counter and no order:
   the recursion follows the value.
   */
  ghost predicate Conforms(p: Platform, forest: seq<HimTree>, value: Json, typePath: bytes)
    requires value.Object?
    decreases value, 0
  {
    && RootOf(forest, typePath).Some?
    && !Overruns(RootOf(forest, typePath).value, typePath + ALL_BELOW)
    && var nodes := TypeNodes(RootOf(forest, typePath).value, typePath);
    && nodes != []
    && forall name :: name in value.members ==> MemberConforms(p, forest, name, value.members[name], nodes)
  }

  ghost predicate MemberConforms(p: Platform, forest: seq<HimTree>, name: bytes, member: Json, nodes: seq<Match>)
    requires nodes != []
    decreases member, 1
  {
    && Known(p, nodes, name)
    && var dataType := nodes[IndexFor(p, nodes, name)].node.dataType;
    && if member.Object? then Conforms(p, forest, member, dataType) else !IsStructMemberType(dataType)
  }

  /** At most `n` objects inside one another, member by member. */
  ghost predicate NestedAtMost(value: Json, n: int)
    decreases value
  {
    value.Object? ==> n >= 1 && forall name :: name in value.members ==> NestedAtMost(value.members[name], n - 1)
  }

  /**
   The check accepts exactly the conforming values of at most six nested objects, in whatever order
   their members are met and however names are folded.
   */
  lemma {:induction false} VerifyIff(p: Platform, forest: seq<HimTree>, value: map<bytes, Json>, typePath: bytes, depth: nat)
    requires depth <= MAX_NESTING + 1
    ensures VerifyStruct(p, forest, value, typePath, depth) == Ok
       <==> Conforms(p, forest, Object(value), typePath) && NestedAtMost(Object(value), MAX_NESTING + 1 - depth)
    decreases MAX_NESTING + 1 - depth, 2, 0
  {
    hide TypeNodes, RootOf, MemberConforms, VerifyMembers, Overruns;
    if depth <= MAX_NESTING && RootOf(forest, typePath).Some? {
      var nodes := TypeNodes(RootOf(forest, typePath).value, typePath);
      if nodes != [] {
        var names := p.order(value);
        assert Lists(names, value);
        MembersIff(p, forest, names, value, nodes, depth);
      }
    }
  }

  lemma {:induction false} MembersIff(p: Platform, forest: seq<HimTree>, names: seq<bytes>, value: map<bytes, Json>, nodes: seq<Match>, depth: nat)
    requires depth <= MAX_NESTING && nodes != [] && forall name :: name in names ==> name in value
    ensures VerifyMembers(p, forest, names, value, nodes, depth) == Ok
       <==> forall name :: name in names ==>
              MemberConforms(p, forest, name, value[name], nodes) && NestedAtMost(value[name], MAX_NESTING - depth)
    decreases MAX_NESTING + 1 - depth, 1, |names|
  {
    hide VerifyMember, MemberConforms, NestedAtMost;
    if names != [] {
      MemberIff(p, forest, names[0], value[names[0]], nodes, depth);
      MembersIff(p, forest, names[1..], value, nodes, depth);
      assert forall name :: name in names <==> name == names[0] || name in names[1..];
    }
  }

  lemma {:induction false} MemberIff(p: Platform, forest: seq<HimTree>, name: bytes, member: Json, nodes: seq<Match>, depth: nat)
    requires depth <= MAX_NESTING && nodes != []
    ensures VerifyMember(p, forest, name, member, nodes, depth) == Ok
       <==> MemberConforms(p, forest, name, member, nodes) && NestedAtMost(member, MAX_NESTING - depth)
    decreases MAX_NESTING + 1 - depth, 0, 0
  {
    hide VerifyStruct, Conforms, IndexFor, IsStructMemberType, Known, Lists, Folds;
    if member.Object? {
      VerifyIff(p, forest, member.members, nodes[IndexFor(p, nodes, name)].node.dataType, depth + 1);
      assert Object(member.members) == member;
    }
  }

  /** A set value passes exactly if its node's type is no struct type, or it is an object that conforms. */
  lemma {:induction false} StructValueIff(p: Platform, forest: seq<HimTree>, dataType: bytes, value: Json)
    ensures ValidateStructSetValue(p, forest, dataType, value) == Accepted
       <==> HasPrefix(dataType, Ascii("Types"))
            ==> value.Object? && Conforms(p, forest, value, dataType) && NestedAtMost(value, MAX_NESTING + 1)
  {
    hide VerifyStruct, Conforms, NestedAtMost, Ascii;
    if value.Object? {
      VerifyIff(p, forest, value.members, dataType, 0);
      assert Object(value.members) == value;
    }
  }

  /** Without overruns among the type searches the check always comes to a verdict. */
  lemma {:induction false} NeverBroken(p: Platform, forest: seq<HimTree>, value: map<bytes, Json>, typePath: bytes, depth: nat)
    requires Searchable(forest) && depth <= MAX_NESTING + 1
    ensures VerifyStruct(p, forest, value, typePath, depth) != Broken
    decreases MAX_NESTING + 1 - depth, 2, 0
  {
    hide TypeNodes, RootOf, VerifyMembers, Overruns, Searchable;
    if depth <= MAX_NESTING && RootOf(forest, typePath).Some? {
      RootFits(forest, typePath, ALL_BELOW);
      var nodes := TypeNodes(RootOf(forest, typePath).value, typePath);
      if nodes != [] {
        assert Lists(p.order(value), value);
        MembersNeverBroken(p, forest, p.order(value), value, nodes, depth);
      }
    }
  }

  lemma {:induction false} MembersNeverBroken(p: Platform, forest: seq<HimTree>, names: seq<bytes>, value: map<bytes, Json>, nodes: seq<Match>, depth: nat)
    requires Searchable(forest) && depth <= MAX_NESTING && nodes != [] && forall name :: name in names ==> name in value
    ensures VerifyMembers(p, forest, names, value, nodes, depth) != Broken
    decreases MAX_NESTING + 1 - depth, 1, |names|
  {
    hide VerifyMember, Searchable;
    if names != [] {
      MemberNeverBroken(p, forest, names[0], value[names[0]], nodes, depth);
      MembersNeverBroken(p, forest, names[1..], value, nodes, depth);
    }
  }

  lemma {:induction false} MemberNeverBroken(p: Platform, forest: seq<HimTree>, name: bytes, member: Json, nodes: seq<Match>, depth: nat)
    requires Searchable(forest) && depth <= MAX_NESTING && nodes != []
    ensures VerifyMember(p, forest, name, member, nodes, depth) != Broken
    decreases MAX_NESTING + 1 - depth, 0, 0
  {
    hide VerifyStruct, IndexFor, IsStructMemberType, Known, Searchable;
    if member.Object? {
      NeverBroken(p, forest, member.members, nodes[IndexFor(p, nodes, name)].node.dataType, depth + 1);
    }
  }

  /**
   Only leaves expected below the type are found; for a type path without wildcards and fewer than
   1499 leaves, all of them.
   */
  lemma {:induction false} TypeNodesExact(root: Node, typePath: bytes)
    requires DotFree(root)
    ensures var expected := Expected(MakeQuery(typePath + ALL_BELOW, true, true, []), root);
            && Subsequence(TypeNodes(root, typePath), expected)
            && (typePath != [] && typePath[0] != DOT && WILDCARD !in Split(typePath) && |expected| < MAX_MATCHES
                ==> TypeNodes(root, typePath) == expected)
  {
    hide Search, Expected, Split, OnlyLastStar, NoStar, Subsequence;
    var q := MakeQuery(typePath + ALL_BELOW, true, true, []);
    SearchSound(q, root);
    if typePath != [] && typePath[0] != DOT && WILDCARD !in Split(typePath) {
      AllBelowIsLastStar(typePath, q);
      SearchExact(q, root);
    }
  }

  // ----- the check as it runs -----

  method VerifyStructMember(p: Platform, name: bytes, nodes: seq<Match>) returns (found: bool)
    ensures found <==> Known(p, nodes, name)
  {
    var i := 0;
    while i < |nodes|
      invariant 0 <= i <= |nodes|
      invariant forall k :: 0 <= k < i ==> !IsNamed(p, nodes[k], name)
    {
      if IsNamed(p, nodes[i], name) {
        return true;
      }
      i := i + 1;
    }
    return false;
  }

  method GetIndex(p: Platform, nodes: seq<Match>, name: bytes) returns (i: nat)
    requires nodes != []
    ensures i == IndexFor(p, nodes, name)
  {
    hide Folds, IndexFor, Lists;
    i := 0;
    while i < |nodes|
      invariant 0 <= i <= |nodes|
      invariant forall k :: 0 <= k < i ==> !Folds(p, nodes[k], name)
    {
      if Folds(p, nodes[i], name) {
        return i;
      }
      i := i + 1;
    }
    return 0;
  }

  /** The body of the loop over the members. */
  method CheckMember(p: Platform, forest: seq<HimTree>, name: bytes, member: Json, nodes: seq<Match>, depth: nat) returns (verdict: Verdict)
    requires depth <= MAX_NESTING && nodes != []
    ensures verdict == VerifyMember(p, forest, name, member, nodes, depth)
    decreases MAX_NESTING + 1 - depth, 0
  {
    hide VerifyStruct, IsStructMemberType, IndexFor, Known, Lists, Folds;
    var found := VerifyStructMember(p, name, nodes);
    if !found {
      return Incorrect;
    }
    var index := GetIndex(p, nodes, name);
    var dataType := nodes[index].node.dataType;
    if member.Object? {
      var nested := RunVerifyStruct(p, forest, member.members, dataType, depth + 1);
      return if nested == Ok || nested == Broken then nested else Incorrect;
    }
    return if IsStructMemberType(dataType) then Incorrect else Ok;
  }

  /** Members in whatever order the platform brings them; the first unacceptable one ends the loop. */
  method VerifyStructMembers(p: Platform, forest: seq<HimTree>, value: map<bytes, Json>, nodes: seq<Match>, depth: nat) returns (verdict: Verdict)
    requires depth <= MAX_NESTING && nodes != []
    ensures Lists(p.order(value), value) && verdict == VerifyMembers(p, forest, p.order(value), value, nodes, depth)
    decreases MAX_NESTING + 1 - depth, 1
  {
    hide VerifyMember;
    var names := p.order(value);
    assert Lists(names, value);
    var i := 0;
    assert names[0..] == names;
    while i < |names|
      invariant 0 <= i <= |names|
      invariant VerifyMembers(p, forest, names, value, nodes, depth) == VerifyMembers(p, forest, names[i..], value, nodes, depth)
    {
      assert names[i..][0] == names[i] && names[i..][1..] == names[i + 1..];
      assert names[i] in names;
      verdict := CheckMember(p, forest, names[i], value[names[i]], nodes, depth);
      if verdict != Ok {
        return;
      }
      i := i + 1;
    }
    return Ok;
  }

  method RunVerifyStruct(p: Platform, forest: seq<HimTree>, value: map<bytes, Json>, typePath: bytes, depth: nat) returns (verdict: Verdict)
    requires depth <= MAX_NESTING + 1
    ensures verdict == VerifyStruct(p, forest, value, typePath, depth)
    decreases MAX_NESTING + 1 - depth, 2
  {
    hide VerifyMembers, SearchTree, Overruns;
    var root := SetRootNodePointer(forest, typePath);
    if root.None? {
      return Unverifiable;
    }
    if depth > MAX_NESTING {
      return Incorrect;
    }
    var panicked, nodes, _ := RunSearchTree(root.value, typePath + ALL_BELOW);
    if panicked {
      return Broken;
    }
    if nodes == [] {
      return Incorrect;
    }
    verdict := VerifyStructMembers(p, forest, value, nodes, depth);
  }
}
