/** What holds of every request, for every forest and every answer of the token server. */
module DispatcherTheorems {
  import opened ByteStrings
  import opened VssTree
  import opened AccessRights
  import opened TreeSearch
  import opened PathSegments
  import opened SearchCompleteness
  import opened SearchMeaning
  import opened SearchContext
  import opened Forest
  import opened StructCheck
  import opened Dispatcher

  // ----- which nodes a request touches -----

  /** The path an element of a multi-signal request addresses. */
  function AddressOf(set_: bool, item: Json): Option<bytes> {
    if set_ then
      if item.Object? && PATH_NAME() in item.members && item.members[PATH_NAME()].String?
      then Some(UrlToPath(item.members[PATH_NAME()].text)) else None
    else if item.String? then Some(UrlToPath(item.text)) else None
  }

  ghost predicate MatchedBy(env: Env, path: bytes, m: Match) {
    RootOf(env.forest, path).Some? && m in SearchTree(RootOf(env.forest, path).value, path).0
  }

  ghost predicate ItemTouches(env: Env, set_: bool, item: Json, m: Match) {
    AddressOf(set_, item).Some? && MatchedBy(env, AddressOf(set_, item).value, m)
  }

  ghost predicate TouchesMulti(env: Env, set_: bool, items: seq<Json>, m: Match) {
    exists k :: 0 <= k < |items| && ItemTouches(env, set_, items[k], m)
  }

  ghost predicate TouchesPaths(root: Node, ps: seq<bytes>, m: Match) {
    exists k :: 0 <= k < |ps| && m in SearchTree(root, ps[k]).0
  }

  /** `m` is matched by some path that the request addresses. */
  ghost predicate Touches(env: Env, req0: RequestMap, m: Match) {
    var req := Dotted(req0);
    if IsMultiSignal(req) then TouchesMulti(env, !IsText(req, KAction, "get"), req[KData].items, m)
    else TouchesTree(env, req, m)
  }

  ghost predicate TouchesTree(env: Env, req: RequestMap, m: Match) {
    && StringAt(req, KPath).Some?
    && var rootPath := StringAt(req, KPath).value;
    && RootOf(env.forest, rootPath).Some?
    && var root := RootOf(env.forest, rootPath).value;
    && var plan := PlanOf(env, req[KInfoType := String(env.infoType(root))], Some(root), rootPath);
    && plan.Paths? && TouchesPaths(root, plan.paths, m)
  }

  // ----- the gate -----

  /** The token server accepted the request's token for these paths and this requirement. */
  ghost predicate TokenAccepted(env: Env, req: RequestMap, paths: bytes, validation: int) {
    && StringAt(req, KAuthorization).Some?
    && env.verifyToken(StringAt(req, KAuthorization).value, ActionOf(req), paths, validation).code == 0
  }

  /** At this level a token has to be accepted: always if reads are restricted, else for writes. */
  predicate Needs(req: RequestMap, level: int) {
    level % 10 == 2 || (level % 10 == 1 && ActionOf(req) == Ascii("set"))
  }

  predicate Protected(req: RequestMap, m: Match) {
    Needs(req, LevelOf(m.node.validate))
  }

  /**
   An external request passes exactly if no token is required, or one is given and, where it has to
   be, accepted for just these paths and this level.
   */
  lemma {:induction false} GateIff(env: Env, req: RequestMap, paths: bytes, v: Level)
    requires !IsText(req, KOrigin, "internal")
    ensures PassGate(env, req, paths, v).Pass?
       <==> v % 10 == 0 || (!IsNil(req, KAuthorization) && (Needs(req, v) ==> TokenAccepted(env, req, paths, v)))
  {
    hide IsText, Ascii;
    assert IsLevel(v);
  }

  lemma NeedsMore(req: RequestMap, a: Level, b: Level)
    requires Below(a, b) && Needs(req, a)
    ensures Needs(req, b)
  {
    assert IsLevel(a) && IsLevel(b);
  }

  /** The branch for an impossible requirement is never taken. */
  lemma {:induction false} GateDecides(env: Env, req: RequestMap, paths: bytes, vs: seq<Level>)
    requires vs != []
    ensures PassGate(env, req, paths, Aggregate(vs, -1)) != Stop(Error(7, ""))
  {
    hide IsText, AuthorizeAccess;
    AggregateIsJoin(vs);
    assert IsLevel(JoinAll(vs, 0));
  }

  // ----- what is asked and what is forwarded -----

  /** The text the token server is asked about. */
  function AskText(multi: bool, listing: seq<bytes>): bytes {
    if multi then Bracketed(Listed(listing)) else AskedFor(listing)
  }

  predicate IsPathOf(update: Json, path: bytes) {
    update.Object? && PATH_NAME() in update.members && update.members[PATH_NAME()] == String(path)
  }

  /** What reaches the service manager names exactly the listed paths, in this order. */
  ghost predicate Forwards(req: RequestMap, forwarded: RequestMap, listing: seq<bytes>) {
    if IsMultiSignal(req) && !IsText(req, KAction, "get") then
      && KData in forwarded && forwarded[KData].Array? && |forwarded[KData].items| == |listing|
      && forall k :: 0 <= k < |listing| ==> IsPathOf(forwarded[KData].items[k], listing[k])
    else
      && KPath in forwarded
      && forwarded[KPath] == String(if !IsMultiSignal(req) && |listing| == 1 then listing[0] else AskText(IsMultiSignal(req), listing))
  }

  /** The listed paths are those of all matches, or of each element's first match. */
  ghost predicate ListsMatches(env: Env, req: RequestMap, listing: seq<bytes>) {
    if IsMultiSignal(req) then
      && |listing| == |req[KData].items|
      && forall k :: 0 <= k < |listing| ==> IsFirstPath(env, !IsText(req, KAction, "get"), req[KData].items[k], listing[k])
    else
      && (forall m :: TouchesTree(env, req, m) ==> CutZero(m.path) in listing)
      && (forall p :: p in listing ==> exists m :: TouchesTree(env, req, m) && p == CutZero(m.path))
  }

  ghost predicate IsFirstPath(env: Env, set_: bool, item: Json, path: bytes) {
    && AddressOf(set_, item).Some?
    && var address := AddressOf(set_, item).value;
    && RootOf(env.forest, address).Some?
    && var found := SearchTree(RootOf(env.forest, address).value, address).0;
    && found != [] && path == CutZero(found[0].path)
  }

  // ----- multi-signal requests -----

  lemma {:induction false} GoodItem(env: Env, set_: bool, item: Json)
    requires IsGood(env, set_, item)
    ensures IsFirstPath(env, set_, item, Check(env, set_, item).path)
    ensures forall m :: ItemTouches(env, set_, item, m) ==> Below(LevelOf(m.node.validate), Check(env, set_, item).validation)
  {
    hide SearchTree, Below, LevelOf, UrlToPath, StructCheck.ValidateStructSetValue, Ascii, Overruns, CutZero;
    var path := AddressOf(set_, item).value;
    var root := RootOf(env.forest, path).value;
    SearchTreeCovers(root, path);
  }

  lemma {:induction false} MultiCovers(env: Env, set_: bool, items: seq<Json>, m: Match)
    requires AllGood(env, set_, items) && TouchesMulti(env, set_, items, m)
    ensures Below(LevelOf(m.node.validate), JoinAll(LevelsOf(env, set_, items), 0))
  {
    hide Below, LevelOf, Check, ItemTouches, LevelsOf, JoinAll, IsFirstPath;
    var vs := LevelsOf(env, set_, items);
    var k :| 0 <= k < |items| && ItemTouches(env, set_, items[k], m);
    GoodItem(env, set_, items[k]);
    JoinAllLeast(vs, 0, 0);
    LevelFixed(vs[k]);
    BelowOrder(LevelOf(m.node.validate), vs[k], JoinAll(vs, 0));
  }

  lemma LevelFixed(v: Level)
    ensures LevelOf(v) == v
  {
  }

  /** A forwarded multi-signal request: the gate was asked about each element's first match. */
  lemma {:induction false} MultiAsked(env: Env, req: RequestMap, set_: bool) returns (listing: seq<bytes>, v: Level)
    requires KData in req && req[KData].Array? && !IsText(req, KOrigin, "internal")
    requires ServeMulti(env, req, set_).ToService?
    ensures |listing| == |req[KData].items|
    ensures forall k :: 0 <= k < |listing| ==> IsFirstPath(env, set_, req[KData].items[k], listing[k])
    ensures forall m :: TouchesMulti(env, set_, req[KData].items, m) ==> Below(LevelOf(m.node.validate), v)
    ensures PassGate(env, req, AskText(true, listing), v).Pass?
    ensures var forwarded := ServeMulti(env, req, set_).request;
            if set_ then
              && KData in forwarded && forwarded[KData].Array? && |forwarded[KData].items| == |listing|
              && forall k :: 0 <= k < |listing| ==> IsPathOf(forwarded[KData].items[k], listing[k])
            else KPath in forwarded && forwarded[KPath] == String(AskText(true, listing))
  {
    hide Check, PassGate, TouchesMulti, Aggregate, JoinAll, Below, LevelOf, IsText, Listed, Bracketed,
      UpdatesOf, PathsOf, LevelsOf, IsFirstPath, Ascii;
    var items := req[KData].items;
    assert FirstBad(env, set_, items) == |items|;
    listing := PathsOf(env, set_, items);
    forall k | 0 <= k < |items|
      ensures IsFirstPath(env, set_, items[k], listing[k])
    {
      GoodItem(env, set_, items[k]);
    }
    var vs := LevelsOf(env, set_, items);
    AggregateIsJoin(vs);
    v := JoinAll(vs, 0);
    forall m | TouchesMulti(env, set_, items, m)
      ensures Below(LevelOf(m.node.validate), v)
    {
      MultiCovers(env, set_, items, m);
    }
  }

  // ----- single-path requests -----

  lemma {:induction false} PathsCover(root: Node, ps: seq<bytes>, m: Match)
    requires TouchesPaths(root, ps, m)
    ensures Below(LevelOf(m.node.validate), JoinAll(SearchLevels(root, ps), 0))
  {
    hide Below, LevelOf, SearchTree, JoinAll, SearchLevels;
    var vs := SearchLevels(root, ps);
    var k :| 0 <= k < |ps| && m in SearchTree(root, ps[k]).0;
    SearchTreeCovers(root, ps[k]);
    JoinAllLeast(vs, 0, 0);
    LevelFixed(vs[k]);
    BelowOrder(LevelOf(m.node.validate), vs[k], JoinAll(vs, 0));
  }

  lemma {:induction false} TouchedIsMatched(root: Node, ps: seq<bytes>, m: Match)
    requires TouchesPaths(root, ps, m)
    ensures CutZero(m.path) in MatchedPaths(root, ps)
    decreases |ps|
  {
    hide SearchTree, CutZero;
    var last := SearchTree(root, ps[|ps| - 1]).0;
    if m in last {
      var i :| 0 <= i < |last| && last[i] == m;
      assert NodePaths(last)[i] == CutZero(m.path);
    } else {
      var k :| 0 <= k < |ps| && m in SearchTree(root, ps[k]).0;
      assert ps[..|ps| - 1][k] == ps[k];
      TouchedIsMatched(root, ps[..|ps| - 1], m);
    }
  }

  lemma {:induction false} MatchedIsTouched(root: Node, ps: seq<bytes>, p: bytes) returns (m: Match)
    requires p in MatchedPaths(root, ps)
    ensures TouchesPaths(root, ps, m) && p == CutZero(m.path)
    decreases |ps|
  {
    hide SearchTree, CutZero;
    var before, last := ps[..|ps| - 1], SearchTree(root, ps[|ps| - 1]).0;
    if p in NodePaths(last) {
      var i :| 0 <= i < |last| && NodePaths(last)[i] == p;
      m := last[i];
      assert m in SearchTree(root, ps[|ps| - 1]).0;
    } else {
      m := MatchedIsTouched(root, before, p);
      var k :| 0 <= k < |before| && m in SearchTree(root, before[k]).0;
      assert ps[k] == before[k];
    }
  }

  /** A forwarded request with one path or several: the gate was asked about all their matches. */
  lemma {:induction false} ConcludeAsked(env: Env, req: RequestMap, root: Node, ps: seq<bytes>) returns (listing: seq<bytes>, v: Level)
    requires ps != [] && forall k :: 0 <= k < |ps| ==> IsFine(env, req, root, ps[k])
    requires Conclude(env, req, root, ps).ToService?
    ensures listing == MatchedPaths(root, ps)
    ensures forall m :: TouchesPaths(root, ps, m) ==> CutZero(m.path) in listing && Below(LevelOf(m.node.validate), v)
    ensures forall p :: p in listing ==> exists m :: TouchesPaths(root, ps, m) && p == CutZero(m.path)
    ensures PassGate(env, req, AskText(false, listing), v).Pass?
    ensures var forwarded := Conclude(env, req, root, ps).request;
            KPath in forwarded && forwarded[KPath] == String(if |listing| == 1 then listing[0] else AskText(false, listing))
  {
    hide PassGate, TouchesPaths, Aggregate, JoinAll, Below, LevelOf, IsText, SearchTree, IsFine,
      ValidateData, MatchedPaths, Listed, Bracketed, Contains, SearchLevels, Ascii, CutZero;
    listing := MatchedPaths(root, ps);
    var vs := SearchLevels(root, ps);
    AggregateIsJoin(vs);
    v := JoinAll(vs, 0);
    forall m | TouchesPaths(root, ps, m)
      ensures CutZero(m.path) in listing && Below(LevelOf(m.node.validate), v)
    {
      PathsCover(root, ps, m);
      TouchedIsMatched(root, ps, m);
    }
    forall p | p in listing
      ensures exists m :: TouchesPaths(root, ps, m) && p == CutZero(m.path)
    {
      var m := MatchedIsTouched(root, ps, p);
    }
  }

  lemma {:induction false} IssueAsked(env: Env, req: RequestMap) returns (listing: seq<bytes>, v: Level)
    requires !IsText(req, KOrigin, "internal") && !IsInternalAction(req) && Issue(env, req).ToService?
    ensures forall m :: TouchesTree(env, req, m) ==> CutZero(m.path) in listing && Below(LevelOf(m.node.validate), v)
    ensures forall p :: p in listing ==> exists m :: TouchesTree(env, req, m) && p == CutZero(m.path)
    ensures v % 10 == 0 || (Needs(req, v) ==> TokenAccepted(env, req, AskText(false, listing), v))
    ensures var forwarded := Issue(env, req).request;
            KPath in forwarded && forwarded[KPath] == String(if |listing| == 1 then listing[0] else AskText(false, listing))
  {
    hide Below, LevelOf, SearchTree, IsFine, Conclude, PlanOf, TouchesPaths, Ascii, RootOf, PassGate, AskText, CutZero;
    var rootPath := StringAt(req, KPath).value;
    if NeedsNoTree(req, rootPath) {
      HimNotForwarded(env, req, rootPath);
      assert false;
    }
    var root := RootOf(env.forest, rootPath).value;
    var req1 := req[KInfoType := String(env.infoType(root))];
    var ps := PlanOf(env, req1, Some(root), rootPath).paths;
    PlanNonEmpty(env, req1, Some(root), rootPath);
    listing, v := ConcludeAsked(env, req1, root, ps);
    assert forall m :: TouchesTree(env, req, m) <==> TouchesPaths(root, ps, m);
    GateIff(env, req1, AskText(false, listing), v);
  }

  // ----- every external request -----

  predicate External(req0: RequestMap) {
    !IsText(req0, KOrigin, "internal") && !IsText(req0, KAction, "unsubscribe") && !IsInternalAction(req0)
  }

  /**
   Whatever the forest, the request and the token server: when an external request is forwarded,
   there is one list of paths and one level such that the list names the matches, exactly the listed
   paths are forwarded, the level covers every node the request touches, and, where that level needs
   a token, the token server accepted the request's token for just that list at just that level.
   */
  lemma {:induction false} ForwardedAsked(env: Env, req0: RequestMap) returns (listing: seq<bytes>, v: Level)
    requires Serve(env, req0).ToService? && External(req0)
    ensures var req := Dotted(req0);
            && ListsMatches(env, req, listing) && Forwards(req, Serve(env, req0).request, listing)
            && (forall m :: Touches(env, req0, m) ==> Below(LevelOf(m.node.validate), v))
            && (Needs(req0, v) ==> TokenAccepted(env, req0, AskText(IsMultiSignal(req), listing), v))
  {
    hide Below, LevelOf, SearchTree, IsFine, UrlToPath, ServeMulti, Issue, TouchesTree, TouchesMulti, Ascii,
      Discover, PassGate, AskText, IsFirstPath, CutZero, IsPathOf;
    var req := Dotted(req0);
    DottedKeeps(req0);
    DiscoverCrashIff(env, req);
    if IsMultiSignal(req) {
      listing, v := MultiAsked(env, req, !IsText(req, KAction, "get"));
      GateIff(env, req, AskText(true, listing), v);
    } else {
      listing, v := IssueAsked(env, req);
    }
    assert v % 10 == 0 ==> !Needs(req0, v);
  }

  /** A restricted node is reached only with a token accepted for it. */
  lemma {:induction false} ProtectedNeedsToken(env: Env, req0: RequestMap, m: Match) returns (listing: seq<bytes>, v: Level)
    requires Serve(env, req0).ToService? && External(req0)
    requires Protected(req0, m) && Touches(env, req0, m)
    ensures var req := Dotted(req0);
            && TokenAccepted(env, req0, AskText(IsMultiSignal(req), listing), v) && Below(LevelOf(m.node.validate), v)
            && ListsMatches(env, req, listing) && Forwards(req, Serve(env, req0).request, listing)
            && (!IsMultiSignal(req) ==> CutZero(m.path) in listing)
  {
    hide Below, LevelOf, Serve, Needs, TokenAccepted, TouchesMulti, TouchesPaths, Forwards, RootOf, PlanOf, CutZero, IsFirstPath;
    listing, v := ForwardedAsked(env, req0);
    NeedsMore(req0, LevelOf(m.node.validate), v);
  }

  lemma DottedKeeps(req: RequestMap)
    ensures forall k :: k != KPath ==> (k in Dotted(req) <==> k in req) && (k in req ==> Dotted(req)[k] == req[k])
  {
  }

  lemma {:induction false} HimNotForwarded(env: Env, req: RequestMap, rootPath: bytes)
    requires StringAt(req, KPath) == Some(rootPath) && NeedsNoTree(req, rootPath) && !IsInternalAction(req)
    ensures !Issue(env, req).ToService?
  {
    hide PlanOf, Ascii;
  }

  lemma PlanNonEmpty(env: Env, req: RequestMap, root: Option<Node>, rootPath: bytes)
    ensures PlanOf(env, req, root, rootPath).Paths? ==> PlanOf(env, req, root, rootPath).paths != []
  {
    hide PlanFilters;
  }

  // ----- a token is also enough -----

  /** What it takes for a get of one path to be forwarded, given what its search finds. */
  ghost predicate Served(env: Env, req: RequestMap, matches: seq<Match>, level: Level) {
    && matches != [] && !Contains(matches[0].node.dataType, Ascii(FILE_DESCRIPTOR))
    && (level % 10 == 0
        || (!IsNil(req, KAuthorization) && (level % 10 == 2 ==> TokenAccepted(env, req, AskedFor(NodePaths(matches)), level))))
  }

  /** An external get without filter, of `path` in the tree `root`. */
  ghost predicate PlainGet(env: Env, req0: RequestMap, path: bytes, root: Node) {
    && IsText(req0, KAction, "get") && IsNil(req0, KFilter) && !IsText(req0, KOrigin, "internal")
    && StringAt(Dotted(req0), KPath) == Some(path) && RootOf(env.forest, path) == Some(root)
  }

  lemma GetIsNotSet()
    ensures Ascii("get") != Ascii("set")
  {
    assert Ascii("get")[0] != Ascii("set")[0];
  }

  lemma {:induction false} GetIssued(env: Env, req0: RequestMap, path: bytes, root: Node)
    requires PlainGet(env, req0, path, root)
    ensures Serve(env, req0) == IssueOnTree(env, Dotted(req0)[KInfoType := String(env.infoType(root))], root, path)
  {
    hide Ascii, UrlToPath, IsHim, IssueOnTree, PlanOf, RootOf, Discover, ServeMulti;
    ActionsDiffer();
    DottedKeeps(req0);
  }

  lemma {:induction false} GetPlan(env: Env, req: RequestMap, root: Node, path: bytes)
    requires IsNil(req, KFilter)
    ensures PlanOf(env, req, Some(root), path) == Paths([path])
  {
    hide Ascii;
  }

  lemma {:induction false} GetChecked(env: Env, req: RequestMap, root: Node, path: bytes)
    requires IsText(req, KAction, "get") && IsNil(req, KFilter)
    ensures IsFine(env, req, root, path) <==> !Overruns(root, path) && SearchTree(root, path).0 != []
    ensures IsFine(env, req, root, path) ==> IssueOnTree(env, req, root, path) == Conclude(env, req, root, [path])
    ensures !IsFine(env, req, root, path) ==> !IssueOnTree(env, req, root, path).ToService?
  {
    hide Ascii, SearchTree, Overruns, Conclude, PlanOf;
    GetIsNotSet();
    GetPlan(env, req, root, path);
    assert FirstFailing(env, req, root, [path]) == if IsFine(env, req, root, path) then 1 else 0;
  }

  lemma {:induction false} OnePath(root: Node, path: bytes)
    ensures MatchedPaths(root, [path]) == NodePaths(SearchTree(root, path).0)
    ensures Aggregate(SearchLevels(root, [path]), -1) == SearchTree(root, path).1
  {
    hide SearchTree, CutZero, Aggregate;
    var v := SearchTree(root, path).1;
    assert [path][..0] == [] && MatchedPaths(root, []) == [];
    assert [] + NodePaths(SearchTree(root, path).0) == NodePaths(SearchTree(root, path).0);
    assert SearchLevels(root, [path]) == [v];
    AggregateIsJoin([v]);
    JoinOne(v);
  }

  lemma JoinOne(v: Level)
    ensures JoinAll([v], 0) == v
  {
    assert IsLevel(v) && SearchMax(v, 0) == v;
    assert [v][1..] == [];
  }

  /**
   A get without filter is forwarded exactly if its search ends, finds something that is no file
   descriptor, and the combined level asks for no token, or one is given and, if reads are
   restricted, accepted for just the matches found at just that level.
   */
  lemma {:induction false} GetIff(env: Env, req0: RequestMap, path: bytes, root: Node)
    requires PlainGet(env, req0, path, root)
    ensures Serve(env, req0).ToService?
       <==> !Overruns(root, path) && Served(env, req0, SearchTree(root, path).0, SearchTree(root, path).1)
  {
    hide Ascii, SearchTree, Contains, Serve, IssueOnTree, Overruns, RootOf, MatchedPaths, SearchLevels,
      Aggregate, PassGate, NodePaths, AskedFor, IsFine;
    var req := Dotted(req0)[KInfoType := String(env.infoType(root))];
    DottedKeeps(req0);
    GetIssued(env, req0, path, root);
    GetChecked(env, req, root, path);
    OnePath(root, path);
    GetIsNotSet();
    var v := SearchTree(root, path).1;
    GateIff(env, req, AskedFor(NodePaths(SearchTree(root, path).0)), v);
    assert IsLevel(v);
  }

  /**
   For a path without a wildcard, or with one at the end, and fewer than 1499 leaves to report, the
   matches are the expected leaves and the level is the combination over every node on the way.
   */
  lemma {:induction false} GetExpectedIff(env: Env, req0: RequestMap, path: bytes, root: Node)
    requires PlainGet(env, req0, path, root) && DotFree(root) && path != []
    requires var q := MakeQuery(path, true, true, []); (NoStar(q) || OnlyLastStar(q)) && |Expected(q, root)| < MAX_MATCHES
    ensures var q := MakeQuery(path, true, true, []);
            (Serve(env, req0).ToService?
             <==> && (forall at :: !TooDeep(q, root, 1, root.name, at))
                  && Served(env, req0, Expected(q, root), JoinAll(Requirements(Expected(Everything(q), root)), 0)))
  {
    hide Serve, Search, Expected, NoStar, OnlyLastStar, JoinAll, Requirements, Served, PlainGet, TooDeep;
    var q := MakeQuery(path, true, true, []);
    GetIff(env, req0, path, root);
    SearchExact(q, root);
    OverrunIff(q, root);
  }

  // ----- elements of multi-signal requests -----

  /** The element addresses a node of its own tree. */
  ghost predicate Reaches(env: Env, set_: bool, item: Json) {
    && AddressOf(set_, item).Some?
    && var address := AddressOf(set_, item).value;
    && RootOf(env.forest, address).Some?
    && var root := RootOf(env.forest, address).value;
    && !Overruns(root, address) && SearchTree(root, address).0 != []
  }

  /** It carries a value that may be written to the first node it reaches. */
  ghost predicate Writes(env: Env, item: Json)
    requires Reaches(env, true, item)
  {
    var address := AddressOf(true, item).value;
    var node := SearchTree(RootOf(env.forest, address).value, address).0[0].node;
    && VALUE_NAME() in item.members && node.nodeType == ACTUATOR
    && var value := item.members[VALUE_NAME()];
    && (HasPrefix(node.dataType, Ascii("Types")) ==>
          value.Object? && Conforms(env.platform, env.forest, value, node.dataType) && NestedAtMost(value, MAX_NESTING + 1))
  }

  /** An element passes exactly if it reaches a node and, in a set, writes a fitting value to an actuator. */
  lemma {:induction false} ItemIff(env: Env, set_: bool, item: Json)
    ensures IsGood(env, set_, item) <==> Reaches(env, set_, item) && (set_ ==> Writes(env, item))
  {
    hide Ascii, SearchTree, Overruns, UrlToPath, RootOf, ValidateStructSetValue, Conforms, NestedAtMost, HasPrefix, CutZero;
    if set_ && Reaches(env, true, item) && VALUE_NAME() in item.members {
      var address := AddressOf(true, item).value;
      var node := SearchTree(RootOf(env.forest, address).value, address).0[0].node;
      StructValueIff(env.platform, env.forest, node.dataType, item.members[VALUE_NAME()]);
    }
  }

  // ----- multi-set: all or nothing -----

  /**
   A multi-set is forwarded only if every element passes; then it holds as many updates, in order,
   each with the client's value and the path of the first node its own path matches in its own tree.
   If an element does not pass, the one with the least index decides: its error is the reply, or its
   search stops the server.
   */
  lemma {:induction false} MultiSetAllOrNothing(env: Env, req: RequestMap)
    requires KData in req && req[KData].Array? && req[KData].items != []
    ensures !AllGood(env, true, req[KData].items) ==>
              exists i: nat :: IsFirstBad(env, req[KData].items, i) && ServeMulti(env, req, true) == Refusal(env, req[KData].items[i])
    ensures ServeMulti(env, req, true).ToService? ==>
              AllGood(env, true, req[KData].items) && AllUpdated(env, req[KData].items, ServeMulti(env, req, true).request)
  {
    hide Check, PassGate, Aggregate, Ascii, Listed, Bracketed, PathsOf, LevelsOf, IsUpdateOf;
    var items := req[KData].items;
    var i := FirstBad(env, true, items);
    if i < |items| {
      assert IsFirstBad(env, items, i);
    } else if ServeMulti(env, req, true).ToService? {
      forall k | 0 <= k < |items|
        ensures IsUpdateOf(env, items[k], UpdatesOf(env, items)[k])
      {
        UpdateOfGood(env, items[k]);
      }
    }
  }

  function Refusal(env: Env, item: Json): Outcome {
    if Check(env, true, item).Bad? then ToBackend(Check(env, true, item).reply) else Crash
  }

  ghost predicate IsFirstBad(env: Env, items: seq<Json>, i: nat) {
    i < |items| && !IsGood(env, true, items[i]) && forall k :: 0 <= k < i ==> IsGood(env, true, items[k])
  }

  ghost predicate AllUpdated(env: Env, items: seq<Json>, forwarded: RequestMap) {
    && KData in forwarded && forwarded[KData].Array? && |forwarded[KData].items| == |items|
    && forall k :: 0 <= k < |items| ==> IsUpdateOf(env, items[k], forwarded[KData].items[k])
  }

  /** `update` writes the value of `item` to the first node `item` reaches, an actuator. */
  ghost predicate IsUpdateOf(env: Env, item: Json, update: Json) {
    && Reaches(env, true, item) && VALUE_NAME() in item.members
    && var address := AddressOf(true, item).value;
    && var first := SearchTree(RootOf(env.forest, address).value, address).0[0];
    && first.node.nodeType == ACTUATOR
    && update == Object(map[PATH_NAME() := String(CutZero(first.path)), VALUE_NAME() := item.members[VALUE_NAME()]])
  }

  lemma {:induction false} UpdateOfGood(env: Env, item: Json)
    requires IsGood(env, true, item)
    ensures IsUpdateOf(env, item, Object(map[PATH_NAME() := String(Check(env, true, item).path), VALUE_NAME() := Check(env, true, item).value]))
  {
    hide SearchTree, Overruns, RootOf, UrlToPath, CutZero, ValidateStructSetValue, Ascii;
  }

  // ----- requests that stop the server -----

  predicate Decides(f: FilterObject) {
    f.variant == Ascii("paths") || f.variant == Ascii("metadata")
  }

  /** The first filter that names paths or asks for metadata, if any, names paths that can be read. */
  ghost predicate AsksPaths(env: Env, fs: seq<FilterObject>) {
    forall i :: 0 <= i < |fs| && Decides(fs[i]) && (forall j :: 0 <= j < i ==> !Decides(fs[j])) ==>
      fs[i].variant == Ascii("paths") && (0x5B in fs[i].parameter ==> env.parsePathArray(fs[i].parameter).Some?)
  }

  lemma {:induction false} PlanIsPaths(env: Env, req: RequestMap, root: Option<Node>, rootPath: bytes, fs: seq<FilterObject>)
    ensures PlanFilters(env, req, root, rootPath, fs).Paths? <==> AsksPaths(env, fs)
    decreases |fs|
  {
    hide Ascii, UrlToPath, Metadata;
    if fs != [] && !Decides(fs[0]) {
      PlanIsPaths(env, req, root, rootPath, fs[1..]);
      AsksPathsLater(env, fs);
    } else if fs != [] {
      VariantsDiffer();
      if AsksPaths(env, fs) {
        assert Decides(fs[0]);
      }
    }
  }

  /** The first filter that names paths or asks for metadata asks for metadata, with a readable depth. */
  predicate AsksDepth(env: Env, fs: seq<FilterObject>)
    decreases |fs|
  {
    && fs != []
    && if Decides(fs[0]) then fs[0].variant == Ascii("metadata") && env.atoi(fs[0].parameter).Some? else AsksDepth(env, fs[1..])
  }

  lemma {:induction false} PlanIsFatal(env: Env, req: RequestMap, root: Option<Node>, rootPath: bytes, fs: seq<FilterObject>)
    ensures PlanFilters(env, req, root, rootPath, fs).PlanFatal?
       <==> && root.Some? && !IsHim(rootPath) && AsksDepth(env, fs)
            && SubTreeOverruns(root.value, rootPath, env.noScopeList(req))
    decreases |fs|
  {
    hide Ascii, UrlToPath, SubTreeOverruns, Described, ExpandPathFilter;
    VariantsDiffer();
    if fs != [] && !Decides(fs[0]) {
      PlanIsFatal(env, req, root, rootPath, fs[1..]);
    }
  }

  lemma {:induction false} AsksPathsLater(env: Env, fs: seq<FilterObject>)
    requires fs != [] && !Decides(fs[0])
    ensures AsksPaths(env, fs) <==> AsksPaths(env, fs[1..])
  {
    hide Decides, Ascii;
    var rest := fs[1..];
    if AsksPaths(env, fs) {
      forall i | 0 <= i < |rest| && Decides(rest[i]) && (forall j :: 0 <= j < i ==> !Decides(rest[j]))
        ensures rest[i].variant == Ascii("paths") && (0x5B in rest[i].parameter ==> env.parsePathArray(rest[i].parameter).Some?)
      {
        assert rest[i] == fs[i + 1];
        assert forall j :: 1 <= j < i + 1 ==> fs[j] == rest[j - 1];
      }
    }
    if AsksPaths(env, rest) {
      forall i | 0 <= i < |fs| && Decides(fs[i]) && (forall j :: 0 <= j < i ==> !Decides(fs[j]))
        ensures fs[i].variant == Ascii("paths") && (0x5B in fs[i].parameter ==> env.parsePathArray(fs[i].parameter).Some?)
      {
        assert rest[i - 1] == fs[i];
        assert forall j :: 0 <= j < i - 1 ==> rest[j] == fs[j + 1];
      }
    }
  }

  lemma VariantsDiffer()
    ensures Ascii("paths") != Ascii("metadata")
  {
  }

  /** A get of "HIM" with a filter that leads to a search, for which there is no tree. */
  ghost predicate SearchesNoTree(env: Env, req0: RequestMap) {
    && IsText(req0, KAction, "get") && !IsNil(req0, KFilter)
    && StringAt(Dotted(req0), KPath) == Some(Ascii("HIM"))
    && AsksPaths(env, env.unpackFilter(req0[KFilter]))
  }

  ghost predicate FirstFatalItem(env: Env, set_: bool, items: seq<Json>, k: nat) {
    k < |items| && Check(env, set_, items[k]).Fatal? && forall j :: 0 <= j < k ==> IsGood(env, set_, items[j])
  }

  ghost predicate FirstFatalPath(env: Env, req: RequestMap, root: Node, ps: seq<bytes>, k: nat) {
    k < |ps| && CheckPath(env, req, root, ps[k]).PathFatal? && forall j :: 0 <= j < k ==> IsFine(env, req, root, ps[j])
  }

  ghost predicate ItemsOverrun(env: Env, set_: bool, items: seq<Json>) {
    exists k: nat :: FirstFatalItem(env, set_, items, k)
  }

  /** Some search made for the request overruns, with nothing wrong before it. */
  ghost predicate SearchOverruns(env: Env, req0: RequestMap) {
    var req := Dotted(req0);
    && !IsText(req, KAction, "unsubscribe")
    && if IsText(req, KAction, "discover") then DiscoveryOverruns(env, req)
       else if IsMultiSignal(req) then ItemsOverrun(env, !IsText(req, KAction, "get"), req[KData].items)
       else !IsInternalAction(req) && TreeOverruns(env, req)
  }

  /** A readable depth and a path of some tree, in which the search for the subtree overruns. */
  ghost predicate DiscoveryOverruns(env: Env, req: RequestMap) {
    && StringAt(req, KPath).Some? && StringAt(req, KDepth).Some? && env.atoi(StringAt(req, KDepth).value).Some?
    && var rootPath := StringAt(req, KPath).value;
    && !AsksForest(rootPath) && RootOf(env.forest, rootPath).Some?
    && SubTreeOverruns(RootOf(env.forest, rootPath).value, rootPath, env.noScopeList(req))
  }

  lemma {:induction false} DiscoverCrashIff(env: Env, req: RequestMap)
    ensures Discover(env, req) == Crash <==> DiscoveryOverruns(env, req)
    ensures !Discover(env, req).ToService?
  {
    hide Ascii, AsksForest, SubTreeOverruns, RootOf, Discovered;
  }

  ghost predicate TreeOverruns(env: Env, req: RequestMap) {
    && StringAt(req, KPath).Some?
    && var rootPath := StringAt(req, KPath).value;
    && !NeedsNoTree(req, rootPath) && RootOf(env.forest, rootPath).Some?
    && var root := RootOf(env.forest, rootPath).value;
    && var req1 := req[KInfoType := String(env.infoType(root))];
    && var plan := PlanOf(env, req1, Some(root), rootPath);
    && ((plan.Paths? && exists k: nat :: FirstFatalPath(env, req1, root, plan.paths, k))
        || (!IsHim(rootPath) && AsksDepth(env, FiltersOf(env, req1)) && SubTreeOverruns(root, rootPath, env.noScopeList(req1))))
  }

  lemma {:induction false} MultiCrashIff(env: Env, req: RequestMap, set_: bool)
    requires KData in req && req[KData].Array?
    ensures ServeMulti(env, req, set_) == Crash <==> ItemsOverrun(env, set_, req[KData].items)
  {
    hide Check, PassGate, Aggregate, PathsOf, LevelsOf, UpdatesOf, Listed, Bracketed, WithTokens;
    var items := req[KData].items;
    var i := FirstBad(env, set_, items);
    if ServeMulti(env, req, set_) == Crash {
      assert FirstFatalItem(env, set_, items, i);
    }
    if k: nat :| FirstFatalItem(env, set_, items, k) {
      assert i == k;
    }
  }

  lemma {:induction false} TreeCrashIff(env: Env, req: RequestMap, root: Node, rootPath: bytes)
    ensures IssueOnTree(env, req, root, rootPath) == Crash
       <==> var plan := PlanOf(env, req, Some(root), rootPath);
            || (plan.Paths? && exists k: nat :: FirstFatalPath(env, req, root, plan.paths, k))
            || (!IsHim(rootPath) && AsksDepth(env, FiltersOf(env, req)) && SubTreeOverruns(root, rootPath, env.noScopeList(req)))
  {
    hide PlanFilters, CheckPath, Conclude, SubTreeOverruns, AsksDepth, IsHim;
    var plan := PlanOf(env, req, Some(root), rootPath);
    PlanIsFatal(env, req, Some(root), rootPath, FiltersOf(env, req));
    if plan.Paths? {
      var ps := plan.paths;
      PlanNonEmpty(env, req, Some(root), rootPath);
      var i := FirstFailing(env, req, root, ps);
      if i == |ps| {
        ConcludeNoCrash(env, req, root, ps);
      } else if CheckPath(env, req, root, ps[i]).PathFatal? {
        assert FirstFatalPath(env, req, root, ps, i);
      }
      if k: nat :| FirstFatalPath(env, req, root, ps, k) {
        assert i == k;
      }
    }
  }

  lemma {:induction false} ConcludeNoCrash(env: Env, req: RequestMap, root: Node, ps: seq<bytes>)
    requires ps != [] && forall k :: 0 <= k < |ps| ==> IsFine(env, req, root, ps[k])
    ensures Conclude(env, req, root, ps) != Crash
  {
    hide IsFine, SearchTree, Contains, ValidateData, MatchedPaths, PassGate, Aggregate, SearchLevels, AskedFor, WithTokens, Ascii;
  }

  /** A request stops the server exactly if it is a search without a tree or a search that overruns. */
  lemma {:induction false} CrashIffAny(env: Env, req0: RequestMap)
    ensures Serve(env, req0) == Crash <==> SearchesNoTree(env, req0) || SearchOverruns(env, req0)
  {
    hide PlanFilters, IssueOnTree, ServeMulti, Discover, UrlToPath, Ascii, AsksPaths, ItemsOverrun, FirstFatalPath, RootOf;
    ActionsDiffer();
    DottedKeeps(req0);
    var req := Dotted(req0);
    if IsText(req, KAction, "discover") {
      DiscoverCrashIff(env, req);
    } else if IsMultiSignal(req) {
      MultiCrashIff(env, req, !IsText(req, KAction, "get"));
    } else if StringAt(req, KPath).Some? {
      var rootPath := StringAt(req, KPath).value;
      PlanIsPaths(env, req, None, rootPath, FiltersOf(env, req));
      PlanIsFatal(env, req, None, rootPath, FiltersOf(env, req));
      if RootOf(env.forest, rootPath).Some? {
        var root := RootOf(env.forest, rootPath).value;
        TreeCrashIff(env, req[KInfoType := String(env.infoType(root))], root, rootPath);
      }
    }
  }

  lemma ActionsDiffer()
    ensures Ascii("get") != Ascii("unsubscribe") && Ascii("get") != Ascii("discover")
    ensures Ascii("get") != Ascii("internal-killsubscriptions") && Ascii("get") != Ascii("internal-cancelsubscription")
  {
  }

  // ----- searchable forests -----

  lemma {:induction false} ItemNotFatal(env: Env, set_: bool, item: Json)
    requires Searchable(env.forest)
    ensures !Check(env, set_, item).Fatal?
  {
    hide Ascii, SearchTree, Overruns, UrlToPath, RootOf, VerifyStruct, HasPrefix, CutZero, Searchable;
    if AddressOf(set_, item).Some? {
      var address := AddressOf(set_, item).value;
      assert address + [] == address;
      if RootOf(env.forest, address).Some? {
        RootFits(env.forest, address, []);
      }
      forall value: map<bytes, Json>, dataType: bytes
        ensures VerifyStruct(env.platform, env.forest, value, dataType, 0) != Broken
      {
        NeverBroken(env.platform, env.forest, value, dataType, 0);
      }
    }
  }

  /** Every path to search is the request's own path, or continues it after a dot. */
  lemma {:induction false} PlannedBelow(env: Env, req: RequestMap, root: Option<Node>, rootPath: bytes, fs: seq<FilterObject>, p: bytes)
    returns (suffix: bytes)
    requires PlanFilters(env, req, root, rootPath, fs).Paths? && p in PlanFilters(env, req, root, rootPath, fs).paths
    ensures p == rootPath + suffix && suffix != [] && suffix[0] == DOT
    decreases |fs|
  {
    hide UrlToPath, Ascii, Metadata;
    if fs[0].variant == Ascii("paths") {
      assert rootPath <= p && |p| > |rootPath| && p[|rootPath|] == DOT;
      suffix := p[|rootPath|..];
    } else {
      suffix := PlannedBelow(env, req, root, rootPath, fs[1..], p);
    }
  }

  lemma {:induction false} PathNotFatal(env: Env, req: RequestMap, root: Node, rootPath: bytes, p: bytes)
    requires Searchable(env.forest) && RootOf(env.forest, rootPath) == Some(root)
    requires var plan := PlanOf(env, req, Some(root), rootPath); plan.Paths? && p in plan.paths
    ensures !CheckPath(env, req, root, p).PathFatal?
  {
    hide Searchable, RootOf, Overruns, PlanFilters, FiltersOf, VerifyStruct, SearchTree, Ascii, HasPrefix;
    if p == rootPath {
      RootFits(env.forest, rootPath, []);
      assert rootPath + [] == rootPath;
    } else {
      var suffix := PlannedBelow(env, req, Some(root), rootPath, FiltersOf(env, req), p);
      RootFits(env.forest, rootPath, suffix);
    }
    forall value: map<bytes, Json>, dataType: bytes
      ensures VerifyStruct(env.platform, env.forest, value, dataType, 0) != Broken
    {
      NeverBroken(env.platform, env.forest, value, dataType, 0);
    }
  }

  lemma {:induction false} TreeFits(env: Env, req: RequestMap)
    requires Searchable(env.forest)
    ensures !TreeOverruns(env, req)
  {
    hide CheckPath, Searchable, RootOf, PlanOf, IsFine, Ascii, SubTreeOverruns, AsksDepth, FiltersOf;
    if StringAt(req, KPath).Some? && RootOf(env.forest, StringAt(req, KPath).value).Some? {
      var rootPath := StringAt(req, KPath).value;
      var root := RootOf(env.forest, rootPath).value;
      RootFits(env.forest, rootPath, []);
      var req1 := req[KInfoType := String(env.infoType(root))];
      var plan := PlanOf(env, req1, Some(root), rootPath);
      if plan.Paths? {
        if k: nat :| FirstFatalPath(env, req1, root, plan.paths, k) {
          PathNotFatal(env, req1, root, rootPath, plan.paths[k]);
          assert false;
        }
      }
    }
  }

  lemma {:induction false} NoneOverruns(env: Env, req0: RequestMap)
    requires Searchable(env.forest)
    ensures !SearchOverruns(env, req0)
  {
    hide Check, CheckPath, Searchable, RootOf, PlanOf, IsGood, IsFine, UrlToPath, Ascii, TreeOverruns, SubTreeOverruns;
    var req := Dotted(req0);
    if StringAt(req, KPath).Some? && RootOf(env.forest, StringAt(req, KPath).value).Some? {
      RootFits(env.forest, StringAt(req, KPath).value, []);
    }
    TreeFits(env, req);
    if IsMultiSignal(req) {
      var set_, items := !IsText(req, KAction, "get"), req[KData].items;
      if k: nat :| FirstFatalItem(env, set_, items, k) {
        ItemNotFatal(env, set_, items[k]);
        assert false;
      }
    }
  }

  /**
   With trees of dot-free names and at most 21 levels, a request stops the server exactly if it is a
   get of "HIM" with a filter, and the first filter that names paths or asks for metadata, if there
   is one, names paths that can be read.
   */
  lemma {:induction false} CrashIff(env: Env, req0: RequestMap)
    requires Searchable(env.forest)
    ensures Serve(env, req0) == Crash <==> SearchesNoTree(env, req0)
  {
    hide Serve, SearchesNoTree, SearchOverruns, Searchable;
    CrashIffAny(env, req0);
    NoneOverruns(env, req0);
  }

  function HimRequest(filter: Json): RequestMap {
    map[KAction := String(Ascii("get")), KPath := String(Ascii("HIM")), KFilter := filter]
  }

  lemma {:induction false} HimPath(filter: Json)
    ensures Dotted(HimRequest(filter)) == HimRequest(filter)
  {
    var him := Ascii("HIM");
    assert him[0] == 0x48 && him[1] == 0x49 && him[2] == 0x4D;
    assert seq(|him|, i requires 0 <= i < |him| => if him[i] == SLASH then DOT else him[i]) == him;
  }

  /** Filters "paths", then "metadata": the server stops, although metadata is asked for. */
  lemma {:induction false} PathsBeforeMetadataCrashes(env: Env, filter: Json)
    requires !filter.Null?
    requires env.unpackFilter(filter) == [FilterObject(Ascii("paths"), Ascii("x")), FilterObject(Ascii("metadata"), Ascii("0"))]
    ensures Serve(env, HimRequest(filter)) == Crash
  {
    hide Serve, SearchOverruns;
    var fs := env.unpackFilter(filter);
    assert Ascii("x") == [0x78];
    assert 0x5B !in fs[0].parameter && Decides(fs[0]);
    assert AsksPaths(env, fs);
    HimPath(filter);
    CrashIffAny(env, HimRequest(filter));
  }

  /** A "paths" filter whose list cannot be read is answered. */
  lemma {:induction false} UnreadablePathsAnswered(env: Env, filter: Json, parameter: bytes)
    requires !filter.Null? && env.unpackFilter(filter) == [FilterObject(Ascii("paths"), parameter)]
    requires 0x5B in parameter && env.parsePathArray(parameter).None?
    ensures Serve(env, HimRequest(filter)) == ToBackend(Error(0, ""))
  {
    hide Ascii, UrlToPath;
    HimPath(filter);
    ActionsDiffer();
  }

  /** A get of "A.*" in a chain of 22 nodes stops the server, and in one of 21 does not. */
  lemma {:induction false} DeepTreeCrashes(env: Env, req0: RequestMap, n: nat)
    requires 1 <= n <= 100 && PlainGet(env, req0, ALL_OF_A, Chain(n))
    ensures Serve(env, req0) == Crash <==> n >= 22
  {
    hide Serve, IssueOnTree, Search, Chain, RootOf, Ascii, UrlToPath, PlanOf, CheckPath;
    var root := Chain(n);
    var req := Dotted(req0)[KInfoType := String(env.infoType(root))];
    DottedKeeps(req0);
    GetIssued(env, req0, ALL_OF_A, root);
    GetPlan(env, req, root, ALL_OF_A);
    TreeCrashIff(env, req, root, ALL_OF_A);
    ChainOverruns(n);
    GetFatalIff(env, req, root, ALL_OF_A);
    var ps := [ALL_OF_A];
    assert ps[0] == ALL_OF_A;
    if Overruns(root, ALL_OF_A) {
      assert FirstFatalPath(env, req, root, ps, 0);
    }
  }

  lemma {:induction false} GetFatalIff(env: Env, req: RequestMap, root: Node, path: bytes)
    requires IsText(req, KAction, "get")
    ensures CheckPath(env, req, root, path).PathFatal? <==> Overruns(root, path)
  {
    hide Ascii, SearchTree, Overruns;
    GetIsNotSet();
  }
}
