/**
 What becomes of a request, said of the request, the trees and the answers of the token server alone:
 none of the dispatcher's own steps appears in these statements.
 */
module RequestOutcomes {
  import opened ByteStrings
  import opened VssTree
  import opened AccessRights
  import opened TreeSearch
  import opened Forest
  import opened StructCheck
  import opened Dispatcher
  import opened DispatcherTheorems

  // ----- requests about one tree -----

  /** A request that is no control message, with the path `path`, which lies in the tree `root`. */
  ghost predicate OnTree(env: Env, req0: RequestMap, path: bytes, root: Node) {
    && StringAt(Dotted(req0), KPath) == Some(path) && RootOf(env.forest, path) == Some(root)
    && !IsText(req0, KAction, "unsubscribe") && !IsText(req0, KAction, "discover")
    && !IsText(req0, KAction, "internal-killsubscriptions") && !IsText(req0, KAction, "internal-cancelsubscription")
    && !(path == Ascii("HIM") && IsText(req0, KAction, "get") && !IsNil(req0, KFilter))
  }

  function Filters(env: Env, req: RequestMap): seq<FilterObject> {
    if KFilter !in req || req[KFilter].Null? then [] else env.unpackFilter(req[KFilter])
  }

  /** The first filter that names paths or asks for metadata. */
  ghost predicate Decisive(fs: seq<FilterObject>, i: nat) {
    && i < |fs| && (fs[i].variant == Ascii("paths") || fs[i].variant == Ascii("metadata"))
    && forall j :: 0 <= j < i ==> fs[j].variant != Ascii("paths") && fs[j].variant != Ascii("metadata")
  }

  /** The paths named by a filter's parameter, below the request's path. */
  ghost predicate Names(env: Env, parameter: bytes, path: bytes, ps: seq<bytes>) {
    if '[' as int in parameter then
      && env.parsePathArray(parameter).Some?
      && var below := env.parsePathArray(parameter).value;
      && if below == [] then ps == [path]
         else |ps| == |below| && forall k :: 0 <= k < |below| ==> ps[k] == path + Ascii(".") + UrlToPath(below[k])
    else ps == [path + Ascii(".") + UrlToPath(parameter)]
  }

  /** The paths searched for: those the decisive filter names, or the request's own if there is none. */
  ghost predicate Searched(env: Env, fs: seq<FilterObject>, path: bytes, ps: seq<bytes>) {
    || ((forall i: nat :: !Decisive(fs, i)) && ps == [path])
    || (exists i: nat :: NamedBy(env, fs, i, path, ps))
  }

  ghost predicate NamedBy(env: Env, fs: seq<FilterObject>, i: nat, path: bytes, ps: seq<bytes>) {
    Decisive(fs, i) && fs[i].variant == Ascii("paths") && Names(env, fs[i].parameter, path, ps)
  }

  ghost predicate Found(root: Node, path: bytes) {
    !Overruns(root, path) && SearchTree(root, path).0 != []
  }

  function First(root: Node, path: bytes): Node
    requires Found(root, path)
  {
    SearchTree(root, path).0[0].node
  }

  function ValueOf(req: RequestMap): Json { if KValue in req then req[KValue] else Null }

  ghost predicate IsStruct(node: Node) {
    exists rest :: node.dataType == Ascii("Types") + rest
  }

  /** The request's value may be written to a node of this type. */
  ghost predicate TakesValue(env: Env, req: RequestMap, node: Node) {
    IsStruct(node) ==>
      && ValueOf(req).Object? && NestedAtMost(ValueOf(req), 6)
      && Conforms(env.platform, env.forest, ValueOf(req), node.dataType)
  }

  ghost predicate IsFile(node: Node) {
    HasPart(node.dataType, Ascii(".FileDescriptor"))
  }

  /** No token is required, or the one given suffices for these paths at this level. */
  ghost predicate MayPass(env: Env, req: RequestMap, asked: bytes, v: Level) {
    || IsText(req, KOrigin, "internal") || v % 10 == 0
    || (!IsNil(req, KAuthorization) && (Needs(req, v) ==> TokenAccepted(env, req, asked, v)))
  }

  // ----- the steps behind it -----

  lemma {:induction false} Issued(env: Env, req0: RequestMap, path: bytes, root: Node)
    requires OnTree(env, req0, path, root)
    ensures Serve(env, req0) == IssueOnTree(env, Dotted(req0)[KInfoType := String(env.infoType(root))], root, path)
  {
    hide Ascii, UrlToPath, IssueOnTree, PlanOf, RootOf, Discover, ServeMulti;
    DottedKeeps(req0);
  }

  lemma {:induction false} DecisiveLater(fs: seq<FilterObject>, i: nat)
    requires fs != [] && fs[0].variant != Ascii("paths") && fs[0].variant != Ascii("metadata")
    ensures i >= 1 ==> (Decisive(fs, i) <==> Decisive(fs[1..], i - 1))
    ensures !Decisive(fs, 0)
  {
    hide Ascii;
    if i >= 1 {
      if Decisive(fs, i) {
        assert fs[1..][i - 1] == fs[i];
        assert forall j :: 0 <= j < i - 1 ==> fs[1..][j] == fs[j + 1];
      }
      if Decisive(fs[1..], i - 1) {
        assert forall j :: 1 <= j < i ==> fs[j] == fs[1..][j - 1];
      }
    }
  }

  /** Nothing is named when the list read is empty: then the request's own path is searched. */
  function OrOwn(path: bytes, ps: seq<bytes>): seq<bytes> { if ps == [] then [path] else ps }

  lemma {:induction false} NamesIff(env: Env, parameter: bytes, path: bytes, ps: seq<bytes>)
    ensures Names(env, parameter, path, ps)
       <==> var expanded := ExpandPathFilter(env, parameter, path); expanded.Some? && OrOwn(path, expanded.value) == ps
  {
    hide UrlToPath;
    assert Ascii(".") == [DOT];
  }

  lemma {:induction false} SearchedIff(env: Env, req: RequestMap, root: Option<Node>, path: bytes, fs: seq<FilterObject>, ps: seq<bytes>)
    ensures Searched(env, fs, path, ps)
       <==> var plan := PlanFilters(env, req, root, path, fs); plan.Paths? && OrOwn(path, plan.paths) == ps
    decreases |fs|
  {
    hide Ascii, UrlToPath, ExpandPathFilter, Names, OrOwn;
    assert OrOwn(path, []) == [path] by { OwnPath(path); }
    if fs == [] {
      assert forall i: nat :: !Decisive(fs, i);
    } else if Decides(fs[0]) {
      VariantsDiffer();
      assert Decisive(fs, 0);
      NamesIff(env, fs[0].parameter, path, ps);
      if i: nat :| NamedBy(env, fs, i, path, ps) {
        assert i == 0;
      }
      if fs[0].variant == Ascii("paths") && Names(env, fs[0].parameter, path, ps) {
        assert NamedBy(env, fs, 0, path, ps);
      }
    } else {
      SearchedIff(env, req, root, path, fs[1..], ps);
      SearchedLater(env, fs, path, ps);
    }
  }

  lemma OwnPath(path: bytes)
    ensures OrOwn(path, []) == [path]
  {
  }

  lemma {:induction false} SearchedLater(env: Env, fs: seq<FilterObject>, path: bytes, ps: seq<bytes>)
    requires fs != [] && !Decides(fs[0])
    ensures Searched(env, fs, path, ps) <==> Searched(env, fs[1..], path, ps)
  {
    hide Ascii, NamedBy, Decisive;
    forall i: nat
      ensures i >= 1 ==> (Decisive(fs, i) <==> Decisive(fs[1..], i - 1))
      ensures !Decisive(fs, 0)
    {
      DecisiveLater(fs, i);
    }
    if i: nat :| NamedBy(env, fs, i, path, ps) {
      NamedLater(env, fs, i, path, ps);
    }
    if i: nat :| NamedBy(env, fs[1..], i, path, ps) {
      NamedLater(env, fs, i + 1, path, ps);
    }
    if forall i: nat :: !Decisive(fs, i) {
      forall i: nat ensures !Decisive(fs[1..], i) {
        DecisiveLater(fs, i + 1);
        assert !Decisive(fs, i + 1);
      }
    }
    if forall i: nat :: !Decisive(fs[1..], i) {
      forall i: nat ensures !Decisive(fs, i) {
        DecisiveLater(fs, i);
      }
    }
  }

  lemma NamedLater(env: Env, fs: seq<FilterObject>, i: nat, path: bytes, ps: seq<bytes>)
    requires fs != [] && !Decides(fs[0])
    ensures !NamedBy(env, fs, 0, path, ps)
    ensures i >= 1 ==> (NamedBy(env, fs, i, path, ps) <==> NamedBy(env, fs[1..], i - 1, path, ps))
  {
    hide Ascii, Names;
    DecisiveLater(fs, i);
  }

  // ----- every request about one tree -----

  /** The path is found and takes the value of a set. */
  ghost predicate Takes(env: Env, req: RequestMap, root: Node, path: bytes) {
    Found(root, path) && (IsText(req, KAction, "set") ==> TakesValue(env, req, First(root, path)))
  }

  lemma {:induction false} FineIff(env: Env, req: RequestMap, root: Node, path: bytes)
    ensures IsFine(env, req, root, path) <==> Takes(env, req, root, path)
  {
    hide Overruns, SearchTree, Ascii, ValidateStructSetValue, Conforms, NestedAtMost;
    if Found(root, path) {
      var node := First(root, path);
      StructValueIff(env.platform, env.forest, node.dataType, ValueOf(req));
      StructIff(node);
    }
  }

  lemma {:induction false} StructIff(node: Node)
    ensures IsStruct(node) <==> HasPrefix(node.dataType, Ascii("Types"))
  {
    var types := Ascii("Types");
    hide Ascii;
    if HasPrefix(node.dataType, types) {
      assert node.dataType == types + node.dataType[|types|..];
    }
    if rest :| node.dataType == types + rest {
      assert node.dataType[..|types|] == types;
    }
  }

  lemma {:induction false} PassIff(env: Env, req: RequestMap, asked: bytes, v: Level)
    ensures PassGate(env, req, asked, v).Pass? <==> MayPass(env, req, asked, v)
  {
    hide Ascii;
    if !IsText(req, KOrigin, "internal") {
      GateIff(env, req, asked, v);
    }
  }

  /** What has to hold after the searches: the last one found no file, and an actuator for a set. */
  ghost predicate Concludes(env: Env, req: RequestMap, root: Node, ps: seq<bytes>)
    requires ps != [] && Found(root, ps[|ps| - 1])
  {
    && var node := First(root, ps[|ps| - 1]);
    && !IsFile(node) && (IsText(req, KAction, "set") ==> node.nodeType == Ascii("actuator"))
    && (IsNil(req, KFilter) || env.filterError(Filters(env, req)).None?)
    && MayPass(env, req, AskText(false, MatchedPaths(root, ps)), JoinAll(SearchLevels(root, ps), 0))
  }

  lemma {:induction false} ConcludesIff(env: Env, req: RequestMap, root: Node, ps: seq<bytes>)
    requires ps != [] && forall k :: 0 <= k < |ps| ==> IsFine(env, req, root, ps[k])
    ensures Found(root, ps[|ps| - 1]) && (Conclude(env, req, root, ps).ToService? <==> Concludes(env, req, root, ps))
  {
    hide Found, SearchTree, Ascii, MatchedPaths, SearchLevels, Aggregate, PassGate, MayPass, AskedFor, HasPart, Contains, Conforms, TakesValue;
    FineIff(env, req, root, ps[|ps| - 1]);
    FirstIs(root, ps[|ps| - 1]);
    var node := First(root, ps[|ps| - 1]);
    PartIsContained(node.dataType, Ascii(".FileDescriptor"));
    assert Ascii("actuator") == ACTUATOR by { ActuatorText(); }
    var vs := SearchLevels(root, ps);
    AggregateIsJoin(vs);
    PassIff(env, req, AskedFor(MatchedPaths(root, ps)), JoinAll(vs, 0));
  }

  lemma FirstIs(root: Node, path: bytes)
    requires Found(root, path)
    ensures SearchTree(root, path).0 != [] && First(root, path) == SearchTree(root, path).0[0].node
  {
  }

  lemma ActuatorText()
    ensures Ascii("actuator") == ACTUATOR
  {
  }

  /** The two requests differ at most in path and information type. */
  ghost predicate Alike(a: RequestMap, b: RequestMap) {
    forall k :: k != KPath && k != KInfoType ==> (k in a <==> k in b) && (k in a ==> a[k] == b[k])
  }

  lemma SameTaking(env: Env, a: RequestMap, b: RequestMap, node: Node)
    requires Alike(a, b)
    ensures TakesValue(env, a, node) <==> TakesValue(env, b, node)
  {
    hide Conforms, NestedAtMost, IsStruct;
    assert ValueOf(a) == ValueOf(b);
  }

  lemma SameConclusion(env: Env, a: RequestMap, b: RequestMap, root: Node, ps: seq<bytes>)
    requires Alike(a, b) && ps != [] && Found(root, ps[|ps| - 1])
    ensures Concludes(env, a, root, ps) <==> Concludes(env, b, root, ps)
  {
    hide Found, IsFile, MatchedPaths, SearchLevels, AskText, Ascii;
    assert Filters(env, a) == Filters(env, b) && IsNil(a, KFilter) == IsNil(b, KFilter);
    var asked, v := AskText(false, MatchedPaths(root, ps)), JoinAll(SearchLevels(root, ps), 0);
    assert StringAt(a, KAction) == StringAt(b, KAction) && StringAt(a, KAuthorization) == StringAt(b, KAuthorization);
    assert StringAt(a, KOrigin) == StringAt(b, KOrigin) && IsNil(a, KAuthorization) == IsNil(b, KAuthorization);
    assert MayPass(env, a, asked, v) == MayPass(env, b, asked, v);
  }

  /**
   A request about a tree that leads to a search is forwarded exactly if every path searched is found
   and takes the value, the last node found is no file and, for a set, an actuator, the filters are in
   order, and no token is required or the one given suffices for all matches together.
   */
  lemma {:induction false} RequestIff(env: Env, req0: RequestMap, path: bytes, root: Node, ps: seq<bytes>)
    requires OnTree(env, req0, path, root) && Searched(env, Filters(env, req0), path, ps)
    ensures ps != []
    ensures Serve(env, req0).ToService? <==> (forall k :: 0 <= k < |ps| ==> Takes(env, req0, root, ps[k])) && Concludes(env, req0, root, ps)
  {
    hide Serve, OnTree, Searched, Conclude, Concludes, IsFine, TakesValue, PlanFilters, CheckPath, Ascii, MayPass, UrlToPath;
    var req := Dotted(req0)[KInfoType := String(env.infoType(root))];
    DottedKeeps(req0);
    Issued(env, req0, path, root);
    SearchedIff(env, req, Some(root), path, FiltersOf(env, req), ps);
    assert PlanOf(env, req, Some(root), path) == Paths(ps);
    forall k | 0 <= k < |ps| ensures IsFine(env, req, root, ps[k]) <==> Takes(env, req0, root, ps[k]) {
      SameTakes(env, req, req0, root, ps[k]);
    }
    if FirstFailing(env, req, root, ps) == |ps| {
      ConcludesIff(env, req, root, ps);
      SameConclusion(env, req, req0, root, ps);
    }
  }

  /** A request about a tree that leads to no search, but to metadata or an error, is not forwarded. */
  lemma {:induction false} NoSearchNoService(env: Env, req0: RequestMap, path: bytes, root: Node)
    requires OnTree(env, req0, path, root) && forall ps :: !Searched(env, Filters(env, req0), path, ps)
    ensures !Serve(env, req0).ToService?
  {
    hide Serve, OnTree, Searched, PlanFilters, UrlToPath;
    var req := Dotted(req0)[KInfoType := String(env.infoType(root))];
    DottedKeeps(req0);
    Issued(env, req0, path, root);
    assert FiltersOf(env, req) == Filters(env, req0);
    var plan := PlanFilters(env, req, Some(root), path, FiltersOf(env, req));
    if plan.Paths? {
      SearchedIff(env, req, Some(root), path, FiltersOf(env, req), OrOwn(path, plan.paths));
      assert false;
    }
  }

  // ----- requests without filter -----

  lemma {:induction false} PlainSearched(env: Env, req: RequestMap, path: bytes)
    requires IsNil(req, KFilter)
    ensures Filters(env, req) == [] && Searched(env, Filters(env, req), path, [path])
  {
    assert forall i: nat :: !Decisive([], i);
  }

  lemma {:induction false} OneSearch(root: Node, path: bytes)
    ensures MatchedPaths(root, [path]) == NodePaths(SearchTree(root, path).0)
    ensures JoinAll(SearchLevels(root, [path]), 0) == SearchTree(root, path).1
  {
    hide SearchTree, NodePaths;
    OnePath(root, path);
    AggregateIsJoin(SearchLevels(root, [path]));
  }

  /**
   A set of one path without filter is forwarded exactly if its search does not overrun and finds
   something, the first node found is no file, is an actuator and takes the value, and no token is
   required or the one given suffices for the matches.
   */
  lemma {:induction false} SetIff(env: Env, req0: RequestMap, path: bytes, root: Node)
    requires OnTree(env, req0, path, root) && IsNil(req0, KFilter) && IsText(req0, KAction, "set")
    ensures Serve(env, req0).ToService?
       <==> && !Overruns(root, path) && SearchTree(root, path).0 != []
            && var node := SearchTree(root, path).0[0].node;
            && !HasPart(node.dataType, Ascii(".FileDescriptor"))
            && node.nodeType == Ascii("actuator")
            && ((exists rest :: node.dataType == Ascii("Types") + rest) ==>
                  && ValueOf(req0).Object? && NestedAtMost(ValueOf(req0), 6)
                  && Conforms(env.platform, env.forest, ValueOf(req0), node.dataType))
            && MayPass(env, req0, AskText(false, NodePaths(SearchTree(root, path).0)), SearchTree(root, path).1)
  {
    hide Serve, OnTree, Searched, Overruns, SearchTree, HasPart, Ascii, Conforms, NestedAtMost, MayPass, AskText, NodePaths, MatchedPaths, SearchLevels;
    PlainSearched(env, req0, path);
    RequestIff(env, req0, path, root, [path]);
    OneSearch(root, path);
    assert [path][0] == path;
  }

  /** If all but the actuator is in order, the reply says that the node is read-only. */
  lemma {:induction false} ReadOnlyRefused(env: Env, req0: RequestMap, path: bytes, root: Node)
    requires OnTree(env, req0, path, root) && IsNil(req0, KFilter) && IsText(req0, KAction, "set")
    requires Found(root, path) && TakesValue(env, req0, First(root, path)) && !IsFile(First(root, path))
    requires First(root, path).nodeType != Ascii("actuator")
    ensures Serve(env, req0) == ToBackend(Error(1, "Forbidden to write to read-only resource"))
  {
    hide Serve, OnTree, Searched, Found, TakesValue, IsFile, Ascii, MatchedPaths, SearchLevels, AskText, MayPass;
    PlainSearched(env, req0, path);
    assert [path][0] == path;
    RequestStopped(env, req0, path, root, [path]);
  }

  /** The code with which the gate refuses: no token, a token that is no text, or the token server's code. */
  function RefusalCode(env: Env, req: RequestMap, asked: bytes, v: Level): int {
    if IsNil(req, KAuthorization) then 2
    else if StringAt(req, KAuthorization).None? then 1
    else env.verifyToken(StringAt(req, KAuthorization).value, ActionOf(req), asked, v).code
  }

  lemma {:induction false} Refused(env: Env, req: RequestMap, asked: bytes, v: Level)
    requires !MayPass(env, req, asked, v)
    ensures PassGate(env, req, asked, v) == Stop(TokenError(RefusalCode(env, req, asked, v)))
  {
    hide Ascii;
    assert IsLevel(v);
  }

  lemma {:induction false} SearchIssued(env: Env, req0: RequestMap, path: bytes, root: Node, ps: seq<bytes>)
    requires OnTree(env, req0, path, root) && Searched(env, Filters(env, req0), path, ps)
    ensures ps != []
    ensures var req := Dotted(req0)[KInfoType := String(env.infoType(root))];
            && Alike(req, req0) && FiltersOf(env, req) == Filters(env, req0)
            && (forall k :: 0 <= k < |ps| && !IsFine(env, req, root, ps[k]) && (forall j :: 0 <= j < k ==> IsFine(env, req, root, ps[j])) ==>
                  Serve(env, req0) == match CheckPath(env, req, root, ps[k])
                                      case PathError(reply) => ToBackend(reply)
                                      case _ => Crash)
            && ((forall k :: 0 <= k < |ps| ==> IsFine(env, req, root, ps[k])) ==> Serve(env, req0) == Conclude(env, req, root, ps))
  {
    hide Serve, CheckPath, Conclude, PlanFilters, Ascii, OnTree, UrlToPath, Searched, IsFine;
    var req := Dotted(req0)[KInfoType := String(env.infoType(root))];
    DottedKeeps(req0);
    Issued(env, req0, path, root);
    assert FiltersOf(env, req) == Filters(env, req0);
    SearchedIff(env, req, Some(root), path, FiltersOf(env, req), ps);
    assert PlanOf(env, req, Some(root), path) == Paths(ps);
  }

  lemma {:induction false} SameTakes(env: Env, req: RequestMap, req0: RequestMap, root: Node, path: bytes)
    requires Alike(req, req0)
    ensures IsFine(env, req, root, path) <==> Takes(env, req0, root, path)
  {
    hide Found, TakesValue, CheckPath, Ascii;
    FineIff(env, req, root, path);
    assert StringAt(req, KAction) == StringAt(req0, KAction);
    if Found(root, path) {
      SameTaking(env, req, req0, First(root, path));
    }
  }

  /** The reply when a searched path is the first that is not found or does not take the value. */
  lemma {:induction false} RequestRefused(env: Env, req0: RequestMap, path: bytes, root: Node, ps: seq<bytes>, k: nat)
    requires OnTree(env, req0, path, root) && Searched(env, Filters(env, req0), path, ps) && k < |ps|
    requires !Takes(env, req0, root, ps[k]) && forall j :: 0 <= j < k ==> Takes(env, req0, root, ps[j])
    ensures Overruns(root, ps[k]) ==> Serve(env, req0) == Crash
    ensures !Overruns(root, ps[k]) && SearchTree(root, ps[k]).0 == [] ==> Serve(env, req0) == ToBackend(Error(6, ""))
    ensures Found(root, ps[k]) ==>
              if !ValueOf(req0).Object? then Serve(env, req0) == ToBackend(Error(1, "struct value must be an object"))
              else if RootOf(env.forest, First(root, ps[k]).dataType).None?
              then Serve(env, req0) == ToBackend(Error(1, "Struct cannot be verified"))
              else Serve(env, req0) == ToBackend(Error(1, "Incorrect struct data")) || Serve(env, req0) == Crash
  {
    hide Serve, OnTree, Searched, IsFine, Takes, CheckPath, Conclude, Found, UrlToPath, RootOf;
    var req := Dotted(req0)[KInfoType := String(env.infoType(root))];
    SearchIssued(env, req0, path, root, ps);
    forall j | 0 <= j <= k ensures IsFine(env, req, root, ps[j]) <==> Takes(env, req0, root, ps[j]) {
      SameTakes(env, req, req0, root, ps[j]);
    }
    PathRefused(env, req, req0, root, ps[k]);
  }

  lemma {:induction false} PathRefused(env: Env, req: RequestMap, req0: RequestMap, root: Node, path: bytes)
    requires Alike(req, req0) && !Takes(env, req0, root, path)
    ensures var c := CheckPath(env, req, root, path);
            && (Overruns(root, path) ==> c == PathFatal)
            && (!Overruns(root, path) && SearchTree(root, path).0 == [] ==> c == PathError(Error(6, "")))
            && (Found(root, path) ==>
                  if !ValueOf(req0).Object? then c == PathError(Error(1, "struct value must be an object"))
                  else if RootOf(env.forest, First(root, path).dataType).None? then c == PathError(Error(1, "Struct cannot be verified"))
                  else c == PathError(Error(1, "Incorrect struct data")) || c == PathFatal)
  {
    hide Overruns, SearchTree, Ascii, ValidateStructSetValue, IsStruct, RootOf, Conforms, NestedAtMost;
    assert StringAt(req, KAction) == StringAt(req0, KAction) && ValueOf(req) == ValueOf(req0);
    if Found(root, path) && IsStruct(First(root, path)) {
      StructReplies(env, req0, First(root, path));
    }
  }

  lemma {:induction false} StructReplies(env: Env, req: RequestMap, node: Node)
    requires IsStruct(node)
    ensures var r := ValidateStructSetValue(env.platform, env.forest, node.dataType, ValueOf(req));
            && (!ValueOf(req).Object? ==> r == Rejected("struct value must be an object"))
            && (ValueOf(req).Object? && RootOf(env.forest, node.dataType).None? ==> r == Rejected("Struct cannot be verified"))
            && (ValueOf(req).Object? && RootOf(env.forest, node.dataType).Some? && !TakesValue(env, req, node) ==>
                  r == Rejected("Incorrect struct data") || r == Panicked)
  {
    hide Ascii, Conforms, NestedAtMost, RootOf, VerifyMembers, Overruns, TypeNodes;
    StructIff(node);
    StructValueIff(env.platform, env.forest, node.dataType, ValueOf(req));
    if ValueOf(req).Object? && RootOf(env.forest, node.dataType).Some? {
      NotUnverifiable(env, ValueOf(req).members, node.dataType);
    }
  }

  lemma {:induction false} NotUnverifiable(env: Env, value: map<bytes, Json>, typePath: bytes)
    requires RootOf(env.forest, typePath).Some?
    ensures VerifyStruct(env.platform, env.forest, value, typePath, 0) != Unverifiable
  {
    hide RootOf, VerifyMembers, Overruns, TypeNodes;
    var nodes := TypeNodes(RootOf(env.forest, typePath).value, typePath);
    if nodes != [] {
      MembersVerdict(env.platform, env.forest, env.platform.order(value), value, nodes, 0);
    }
  }

  lemma {:induction false} MembersVerdict(p: Platform, forest: seq<HimTree>, names: seq<bytes>, value: map<bytes, Json>, nodes: seq<Match>, depth: nat)
    requires depth <= MAX_NESTING && nodes != [] && forall name :: name in names ==> name in value
    ensures VerifyMembers(p, forest, names, value, nodes, depth) != Unverifiable
    decreases |names|
  {
    hide VerifyStruct, Known, IndexFor, IsStructMemberType, Lists;
    if names != [] {
      MembersVerdict(p, forest, names[1..], value, nodes, depth);
    }
  }

  /** The reply when every searched path is found and takes the value: a file, no actuator, filters, the gate. */
  lemma {:induction false} RequestStopped(env: Env, req0: RequestMap, path: bytes, root: Node, ps: seq<bytes>)
    requires OnTree(env, req0, path, root) && Searched(env, Filters(env, req0), path, ps)
    requires forall k :: 0 <= k < |ps| ==> Takes(env, req0, root, ps[k])
    ensures ps != [] && Found(root, ps[|ps| - 1])
    ensures var node := First(root, ps[|ps| - 1]);
            var asked, v := AskText(false, MatchedPaths(root, ps)), JoinAll(SearchLevels(root, ps), 0);
            if IsFile(node) then
              Serve(env, req0)
              == ToBackend(Transfer(env.transfer(Dotted(req0)[KInfoType := String(env.infoType(root))], node.nodeType, ps[0])))
            else if IsText(req0, KAction, "set") && node.nodeType != Ascii("actuator") then
              Serve(env, req0) == ToBackend(Error(1, "Forbidden to write to read-only resource"))
            else if !IsNil(req0, KFilter) && env.filterError(Filters(env, req0)).Some? then
              Serve(env, req0) == ToBackend(Error(env.filterError(Filters(env, req0)).value.0, env.filterError(Filters(env, req0)).value.1))
            else if !MayPass(env, req0, asked, v) then
              Serve(env, req0) == ToBackend(TokenError(RefusalCode(env, req0, asked, v)))
            else Serve(env, req0).ToService?
  {
    hide Serve, OnTree, Searched, IsFine, Takes, CheckPath, Conclude, Found, UrlToPath, MatchedPaths, SearchLevels, MayPass, RefusalCode, AskText,
      IsFile, Ascii;
    var req := Dotted(req0)[KInfoType := String(env.infoType(root))];
    SearchIssued(env, req0, path, root, ps);
    forall j | 0 <= j < |ps| ensures IsFine(env, req, root, ps[j]) {
      SameTakes(env, req, req0, root, ps[j]);
    }
    ConcludeStopped(env, req, root, ps);
    assert IsNil(req, KFilter) == IsNil(req0, KFilter) && IsText(req, KAction, "set") == IsText(req0, KAction, "set");
    SameGate(env, req, req0, AskText(false, MatchedPaths(root, ps)), JoinAll(SearchLevels(root, ps), 0));
  }

  lemma {:induction false} ConcludeStopped(env: Env, req: RequestMap, root: Node, ps: seq<bytes>)
    requires ps != [] && forall k :: 0 <= k < |ps| ==> IsFine(env, req, root, ps[k])
    ensures Found(root, ps[|ps| - 1])
    ensures var node := First(root, ps[|ps| - 1]);
            var asked, v := AskText(false, MatchedPaths(root, ps)), JoinAll(SearchLevels(root, ps), 0);
            if IsFile(node) then Conclude(env, req, root, ps) == ToBackend(Transfer(env.transfer(req, node.nodeType, ps[0])))
            else if IsText(req, KAction, "set") && node.nodeType != Ascii("actuator") then
              Conclude(env, req, root, ps) == ToBackend(Error(1, "Forbidden to write to read-only resource"))
            else if !IsNil(req, KFilter) && env.filterError(FiltersOf(env, req)).Some? then
              var e := env.filterError(FiltersOf(env, req)).value;
              Conclude(env, req, root, ps) == ToBackend(Error(e.0, e.1))
            else if !MayPass(env, req, asked, v) then Conclude(env, req, root, ps) == ToBackend(TokenError(RefusalCode(env, req, asked, v)))
            else Conclude(env, req, root, ps).ToService?
  {
    hide Found, SearchTree, Ascii, MatchedPaths, SearchLevels, Aggregate, PassGate, MayPass, AskedFor, HasPart, Contains, CheckPath, TakesValue,
      RefusalCode, JoinAll;
    FineIff(env, req, root, ps[|ps| - 1]);
    FirstIs(root, ps[|ps| - 1]);
    var node := First(root, ps[|ps| - 1]);
    PartIsContained(node.dataType, Ascii(".FileDescriptor"));
    ActuatorText();
    AggregateIsJoin(SearchLevels(root, ps));
    var asked, v := AskText(false, MatchedPaths(root, ps)), JoinAll(SearchLevels(root, ps), 0);
    PassIff(env, req, asked, v);
    if !MayPass(env, req, asked, v) {
      Refused(env, req, asked, v);
    }
  }

  lemma SameGate(env: Env, a: RequestMap, b: RequestMap, asked: bytes, v: Level)
    requires Alike(a, b)
    ensures MayPass(env, a, asked, v) == MayPass(env, b, asked, v) && RefusalCode(env, a, asked, v) == RefusalCode(env, b, asked, v)
  {
    hide Ascii;
    assert StringAt(a, KAction) == StringAt(b, KAction) && StringAt(a, KAuthorization) == StringAt(b, KAuthorization);
    assert StringAt(a, KOrigin) == StringAt(b, KOrigin) && IsNil(a, KAuthorization) == IsNil(b, KAuthorization);
  }

  // ----- what is forwarded -----

  ghost predicate Unchanged(a: RequestMap, b: RequestMap, k: Key) {
    (k in a <==> k in b) && (k in a ==> a[k] == b[k])
  }

  /** A text the token server returned is carried along; without one the entry is as it was. */
  ghost predicate Carries(f: RequestMap, req: RequestMap, k: Key, text: bytes) {
    if text != [] then k in f && f[k] == String(text) else Unchanged(f, req, k)
  }

  /** What the token server returned, where it was asked: for an external request whose level needs a token. */
  function Returned(env: Env, req: RequestMap, asked: bytes, v: Level): TokenReply {
    if !IsText(req, KOrigin, "internal") && Needs(req, v) && StringAt(req, KAuthorization).Some?
    then env.verifyToken(StringAt(req, KAuthorization).value, ActionOf(req), asked, v) else TokenReply(0, [], [])
  }

  /** Handle and gating identifier stand under their own keys; all else but the keys `changed` is as it was. */
  ghost predicate IsForwarded(f: RequestMap, req: RequestMap, r: TokenReply, changed: set<Key>) {
    && Carries(f, req, KHandle, r.handle) && Carries(f, req, KGatingId, r.gatingId)
    && forall k :: k !in changed && k != KHandle && k != KGatingId ==> Unchanged(f, req, k)
  }

  lemma {:induction false} TokensCarried(env: Env, req: RequestMap, asked: bytes, v: Level, edited: RequestMap, changed: set<Key>)
    requires PassGate(env, req, asked, v).Pass? && KHandle !in changed && KGatingId !in changed
    requires forall k :: k !in changed ==> Unchanged(edited, req, k)
    ensures IsForwarded(WithTokens(edited, PassGate(env, req, asked, v)), req, Returned(env, req, asked, v), changed)
    ensures forall k :: k in changed ==> Unchanged(WithTokens(edited, PassGate(env, req, asked, v)), edited, k)
  {
    hide Ascii;
    assert IsLevel(v);
    var g := PassGate(env, req, asked, v);
    var r := Returned(env, req, asked, v);
    assert g.handle == r.handle && g.gatingId == r.gatingId;
  }

  /**
   A forwarded request about a tree: its path is the one match or the list of matches, its information
   type that of the tree, handle and gating identifier those the token server returned.
   */
  lemma {:induction false} RequestForwarded(env: Env, req0: RequestMap, path: bytes, root: Node, ps: seq<bytes>)
    requires OnTree(env, req0, path, root) && Searched(env, Filters(env, req0), path, ps) && Serve(env, req0).ToService?
    ensures var f, found := Serve(env, req0).request, MatchedPaths(root, ps);
            && KPath in f && f[KPath] == String(if |found| == 1 then found[0] else AskText(false, found))
            && KInfoType in f && f[KInfoType] == String(env.infoType(root))
            && IsForwarded(f, req0, Returned(env, req0, AskText(false, found), JoinAll(SearchLevels(root, ps), 0)), {KPath, KInfoType})
  {
    hide Serve, OnTree, Searched, IsFine, PlanFilters, CheckPath, Conclude, UrlToPath, MatchedPaths, SearchLevels, PassGate,
      WithTokens, IsForwarded, Returned, JoinAll, AskText;
    var req := Dotted(req0)[KInfoType := String(env.infoType(root))];
    DottedKeeps(req0);
    Issued(env, req0, path, root);
    assert FiltersOf(env, req) == Filters(env, req0);
    SearchedIff(env, req, Some(root), path, FiltersOf(env, req), ps);
    var found := MatchedPaths(root, ps);
    var asked, v := AskText(false, found), JoinAll(SearchLevels(root, ps), 0);
    ConcludeForwards(env, req, root, ps);
    var edited := req[KPath := String(if |found| == 1 then found[0] else asked)];
    TokensCarried(env, req, asked, v, edited, {KPath, KInfoType});
    SameForwarded(env, req, req0, Serve(env, req0).request, asked, v);
  }

  lemma {:induction false} ConcludeForwards(env: Env, req: RequestMap, root: Node, ps: seq<bytes>)
    requires ps != [] && (forall k :: 0 <= k < |ps| ==> IsFine(env, req, root, ps[k])) && Conclude(env, req, root, ps).ToService?
    ensures var found := MatchedPaths(root, ps);
            var g := PassGate(env, req, AskText(false, found), JoinAll(SearchLevels(root, ps), 0));
            && g.Pass?
            && Conclude(env, req, root, ps).request
               == WithTokens(req[KPath := String(if |found| == 1 then found[0] else AskText(false, found))], g)
  {
    hide IsFine, SearchTree, MatchedPaths, SearchLevels, Aggregate, PassGate, WithTokens, Contains, ValidateData, JoinAll, Listed, Ascii;
    AggregateIsJoin(SearchLevels(root, ps));
  }

  lemma SameForwarded(env: Env, a: RequestMap, b: RequestMap, f: RequestMap, asked: bytes, v: Level)
    requires Alike(a, b) && IsForwarded(f, a, Returned(env, a, asked, v), {KPath, KInfoType})
    ensures IsForwarded(f, b, Returned(env, b, asked, v), {KPath, KInfoType})
  {
    hide Ascii;
    assert StringAt(a, KAction) == StringAt(b, KAction) && StringAt(a, KAuthorization) == StringAt(b, KAuthorization);
    assert StringAt(a, KOrigin) == StringAt(b, KOrigin);
    assert Returned(env, a, asked, v) == Returned(env, b, asked, v);
    forall k | k !in {KPath, KInfoType} && k != KHandle && k != KGatingId ensures Unchanged(f, b, k) {
      assert Unchanged(f, a, k);
    }
  }

  // ----- slashes and dots -----

  /** Segments with a separator between them. */
  function JoinedBy(segments: seq<bytes>, separator: byte): bytes {
    if segments == [] then []
    else if |segments| == 1 then segments[0]
    else segments[0] + [separator] + JoinedBy(segments[1..], separator)
  }

  predicate Bare(segment: bytes) { '/' as int !in segment && '.' as int !in segment }

  /** No segment holds a slash or a dot, and the first is not empty. */
  ghost predicate Segments(segments: seq<bytes>) {
    segments != [] && segments[0] != [] && forall i :: 0 <= i < |segments| ==> Bare(segments[i])
  }

  function Dots(url: bytes): (dotted: bytes)
    ensures |dotted| == |url| && forall i :: 0 <= i < |url| ==> dotted[i] == if url[i] == SLASH then DOT else url[i]
  {
    seq(|url|, i requires 0 <= i < |url| => if url[i] == SLASH then DOT else url[i])
  }

  lemma UrlIs(url: bytes)
    ensures UrlToPath(url) == if url != [] && Dots(url)[0] == DOT then Dots(url)[1..] else Dots(url)
  {
  }

  lemma {:induction false} SlashesToDots(segments: seq<bytes>, separator: byte)
    requires separator == SLASH || separator == DOT
    requires forall i :: 0 <= i < |segments| ==> Bare(segments[i])
    ensures Dots(JoinedBy(segments, separator)) == JoinedBy(segments, DOT)
  {
    if |segments| >= 1 {
      BareStays(segments[0]);
    }
    if |segments| > 1 {
      SlashesToDots(segments[1..], separator);
      var rest := JoinedBy(segments[1..], separator);
      assert Dots(segments[0] + [separator] + rest) == Dots(segments[0]) + [DOT] + Dots(rest);
    }
  }

  lemma BareStays(segment: bytes)
    requires Bare(segment)
    ensures Dots(segment) == segment
  {
    assert forall i :: 0 <= i < |segment| ==> segment[i] in segment;
  }

  /** "A/B", "/A/B" and "A.B" are the same path, "A.B". */
  lemma {:induction false} SamePath(segments: seq<bytes>)
    requires Segments(segments)
    ensures var dotted, slashed := JoinedBy(segments, '.' as int), JoinedBy(segments, '/' as int);
            UrlToPath(slashed) == dotted && UrlToPath(['/' as int] + slashed) == dotted && UrlToPath(dotted) == dotted
  {
    var dotted, slashed := JoinedBy(segments, '.' as int), JoinedBy(segments, '/' as int);
    hide UrlToPath, Dots;
    SlashesToDots(segments, SLASH);
    SlashesToDots(segments, DOT);
    UrlIs(slashed);
    UrlIs(dotted);
    UrlIs(['/' as int] + slashed);
    assert Dots(['/' as int] + slashed) == [DOT] + dotted;
    assert segments[0][0] in segments[0];
    assert dotted[0] == segments[0][0];
  }

  /** Requests that write the same path with slashes or with dots have the same outcome. */
  lemma {:induction false} SameOutcome(env: Env, req: RequestMap, segments: seq<bytes>)
    requires Segments(segments)
    ensures var dotted, slashed := String(JoinedBy(segments, '.' as int)), JoinedBy(segments, '/' as int);
            && Serve(env, req[KPath := String(slashed)]) == Serve(env, req[KPath := dotted])
            && Serve(env, req[KPath := String(['/' as int] + slashed)]) == Serve(env, req[KPath := dotted])
            && Dotted(req[KPath := dotted]) == req[KPath := dotted]
  {
    hide UrlToPath, JoinedBy, Ascii, Issue, ServeMulti, Discover, Serve;
    SamePath(segments);
    var dotted, slashed := String(JoinedBy(segments, '.' as int)), JoinedBy(segments, '/' as int);
    assert Dotted(req[KPath := dotted]) == req[KPath := dotted];
    SameServed(env, req[KPath := String(slashed)], req[KPath := dotted]);
    SameServed(env, req[KPath := String(['/' as int] + slashed)], req[KPath := dotted]);
  }

  lemma SameServed(env: Env, a: RequestMap, b: RequestMap)
    requires Dotted(a) == Dotted(b)
    ensures Serve(env, a) == Serve(env, b)
  {
  }

  /** The path that stands in a list is cut at its first zero byte. */
  lemma {:induction false} CutAtZero(path: bytes)
    ensures CutZero(path) <= path && 0 !in CutZero(path)
    ensures |CutZero(path)| < |path| ==> path[|CutZero(path)|] == 0
  {
    if path != [] && path[0] != 0 {
      CutAtZero(path[1..]);
    }
  }
}
