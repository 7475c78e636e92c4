/**
 What becomes of multi-signal requests, of discovery and metadata requests and of control messages,
 said of the request, the trees and the outside answers alone.
 */
module MultiOutcomes {
  import opened ByteStrings
  import opened VssTree
  import opened AccessRights
  import opened TreeSearch
  import opened Forest
  import opened StructCheck
  import opened Dispatcher
  import opened DispatcherTheorems
  import opened RequestOutcomes

  // ----- multi-signal requests -----

  /** A get or a set with a list of elements and no path. */
  ghost predicate Multi(req: RequestMap, set_: bool, items: seq<Json>) {
    && KPath !in req && KData in req && req[KData] == Array(items)
    && IsText(req, KAction, if set_ then "set" else "get")
  }

  /** The path an element names: a text in a get, the member "path" in a set. */
  function Target(set_: bool, item: Json): Option<bytes> {
    if !set_ then if item.String? then Some(UrlToPath(item.text)) else None
    else if item.Object? && Ascii("path") in item.members && item.members[Ascii("path")].String?
    then Some(UrlToPath(item.members[Ascii("path")].text)) else None
  }

  ghost predicate TargetFound(env: Env, set_: bool, item: Json) {
    && Target(set_, item).Some? && RootOf(env.forest, Target(set_, item).value).Some?
    && Found(RootOf(env.forest, Target(set_, item).value).value, Target(set_, item).value)
  }

  function TargetMatch(env: Env, set_: bool, item: Json): Match
    requires TargetFound(env, set_, item)
  {
    SearchTree(RootOf(env.forest, Target(set_, item).value).value, Target(set_, item).value).0[0]
  }

  function TargetLevel(env: Env, set_: bool, item: Json): Level
    requires TargetFound(env, set_, item)
  {
    SearchTree(RootOf(env.forest, Target(set_, item).value).value, Target(set_, item).value).1
  }

  /** An element of a set: its member "value" may be written to the node it names, an actuator. */
  ghost predicate WritesTarget(env: Env, item: Json)
    requires TargetFound(env, true, item)
  {
    && Ascii("value") in item.members
    && var node, value := TargetMatch(env, true, item).node, item.members[Ascii("value")];
    && node.nodeType == Ascii("actuator")
    && (IsStruct(node) ==>
          value.Object? && NestedAtMost(value, 6) && Conforms(env.platform, env.forest, value, node.dataType))
  }

  ghost predicate Passes(env: Env, set_: bool, item: Json) {
    TargetFound(env, set_, item) && (set_ ==> WritesTarget(env, item))
  }

  lemma {:induction false} PassesIff(env: Env, set_: bool, item: Json)
    ensures IsGood(env, set_, item) <==> Passes(env, set_, item)
    ensures Passes(env, set_, item) ==>
              var c := Check(env, set_, item);
              && c.path == CutZero(TargetMatch(env, set_, item).path) && c.validation == TargetLevel(env, set_, item)
              && (set_ ==> c.value == item.members[Ascii("value")])
  {
    hide Ascii, UrlToPath, RootOf, Overruns, SearchTree, Conforms, NestedAtMost, ValidateStructSetValue, HasPrefix, CutZero;
    ActuatorText();
    ItemIff(env, set_, item);
    if TargetFound(env, set_, item) {
      StructIff(TargetMatch(env, set_, item).node);
    }
  }

  // ----- the list and the level asked about -----

  ghost predicate AllPass(env: Env, set_: bool, items: seq<Json>) {
    forall k :: 0 <= k < |items| ==> Passes(env, set_, items[k])
  }

  function TargetPaths(env: Env, set_: bool, items: seq<Json>): (ps: seq<bytes>)
    requires AllPass(env, set_, items)
    ensures |ps| == |items| && forall k :: 0 <= k < |items| ==> ps[k] == CutZero(TargetMatch(env, set_, items[k]).path)
  {
    seq(|items|, k requires 0 <= k < |items| => CutZero(TargetMatch(env, set_, items[k]).path))
  }

  function TargetLevels(env: Env, set_: bool, items: seq<Json>): (vs: seq<Level>)
    requires AllPass(env, set_, items)
    ensures |vs| == |items| && forall k :: 0 <= k < |items| ==> vs[k] == TargetLevel(env, set_, items[k])
  {
    seq(|items|, k requires 0 <= k < |items| => TargetLevel(env, set_, items[k]))
  }

  lemma {:induction false} MultiServed(env: Env, req: RequestMap, set_: bool, items: seq<Json>)
    requires Multi(req, set_, items)
    ensures Serve(env, req) == ServeMulti(env, req, set_)
  {
    hide Ascii, UrlToPath, Discover, ServeMulti, Issue;
    ActionsDiffer();
    SetDiffers();
  }

  lemma SetDiffers()
    ensures Ascii("set") != Ascii("get") && Ascii("set") != Ascii("unsubscribe") && Ascii("set") != Ascii("discover")
  {
    assert Ascii("set")[0] != Ascii("get")[0];
  }

  lemma {:induction false} SameChecks(env: Env, set_: bool, items: seq<Json>)
    ensures AllGood(env, set_, items) <==> AllPass(env, set_, items)
    ensures AllPass(env, set_, items) ==>
              PathsOf(env, set_, items) == TargetPaths(env, set_, items) && LevelsOf(env, set_, items) == TargetLevels(env, set_, items)
  {
    hide Passes, CutZero, Check;
    forall k | 0 <= k < |items|
      ensures IsGood(env, set_, items[k]) <==> Passes(env, set_, items[k])
      ensures Passes(env, set_, items[k]) ==>
                && IsGood(env, set_, items[k]) && TargetFound(env, set_, items[k])
                && Check(env, set_, items[k]).path == CutZero(TargetMatch(env, set_, items[k]).path)
                && Check(env, set_, items[k]).validation == TargetLevel(env, set_, items[k])
    {
      PassesIff(env, set_, items[k]);
      Opened(env, set_, items[k]);
    }
  }

  lemma Opened(env: Env, set_: bool, item: Json)
    ensures Passes(env, set_, item) ==> TargetFound(env, set_, item)
  {
  }

  /**
   A multi-signal request is forwarded exactly if it has elements, every element passes, and no token
   is required or the one given suffices for the list of their first matches at the combined level.
   */
  lemma {:induction false} MultiIff(env: Env, req: RequestMap, set_: bool, items: seq<Json>)
    requires Multi(req, set_, items)
    ensures Serve(env, req).ToService?
       <==> && items != [] && AllPass(env, set_, items)
            && MayPass(env, req, AskText(true, TargetPaths(env, set_, items)), JoinAll(TargetLevels(env, set_, items), 0))
  {
    hide Serve, IsGood, AllPass, TargetPaths, TargetLevels, PathsOf, LevelsOf, UpdatesOf, PassGate, MayPass, Aggregate, JoinAll, Listed, WithTokens, Check, Ascii;
    MultiServed(env, req, set_, items);
    SameChecks(env, set_, items);
    if items != [] && AllGood(env, set_, items) {
      var vs := LevelsOf(env, set_, items);
      assert vs != [] by { LevelCount(env, set_, items); }
      AggregateIsJoin(vs);
      PassIff(env, req, AskText(true, TargetPaths(env, set_, items)), JoinAll(vs, 0));
    }
  }

  lemma LevelCount(env: Env, set_: bool, items: seq<Json>)
    requires AllGood(env, set_, items)
    ensures |LevelsOf(env, set_, items)| == |items|
  {
  }

  /**
   A forwarded multi-get has the list as its path and no elements; a forwarded multi-set has for each
   element an object of its node's path and its own value. Handle and gating identifier are those the
   token server returned, and nothing else is changed.
   */
  lemma {:induction false} MultiForwarded(env: Env, req: RequestMap, set_: bool, items: seq<Json>)
    requires Multi(req, set_, items) && Serve(env, req).ToService?
    ensures items != [] && AllPass(env, set_, items)
    ensures var f, paths := Serve(env, req).request, TargetPaths(env, set_, items);
            && IsForwarded(f, req, Returned(env, req, AskText(true, paths), JoinAll(TargetLevels(env, set_, items), 0)), {KPath, KData})
            && (if set_ then
                  && KPath !in f && KData in f && f[KData].Array? && |f[KData].items| == |items|
                  && forall k :: 0 <= k < |items| ==> IsUpdate(f[KData].items[k], paths[k], items[k])
                else KData !in f && KPath in f && f[KPath] == String(AskText(true, paths)))
  {
    hide Serve, IsGood, AllPass, TargetPaths, TargetLevels, PathsOf, LevelsOf, PassGate, MayPass, Aggregate, JoinAll, Listed, WithTokens, Check, Ascii,
      IsForwarded, Returned, AskText, UpdatesOf, IsUpdate;
    MultiIff(env, req, set_, items);
    MultiServed(env, req, set_, items);
    SameChecks(env, set_, items);
    var paths, v := TargetPaths(env, set_, items), JoinAll(TargetLevels(env, set_, items), 0);
    var asked := AskText(true, paths);
    var edited := if set_ then req[KData := Array(UpdatesOf(env, items))] else (req - {KData})[KPath := String(asked)];
    ServedMulti(env, req, set_, items, asked, v);
    TokensCarried(env, req, asked, v, edited, {KPath, KData});
    if set_ {
      UpdatesAre(env, items, paths);
    }
  }

  /** The object that writes an element's value to a path. */
  ghost predicate IsUpdate(update: Json, path: bytes, item: Json) {
    && update.Object? && update.members.Keys == {Ascii("path"), Ascii("value")}
    && update.members[Ascii("path")] == String(path)
    && item.Object? && Ascii("value") in item.members && update.members[Ascii("value")] == item.members[Ascii("value")]
  }

  lemma {:induction false} UpdatesAre(env: Env, items: seq<Json>, paths: seq<bytes>)
    requires AllGood(env, true, items) && paths == PathsOf(env, true, items)
    ensures |UpdatesOf(env, items)| == |items|
    ensures forall k :: 0 <= k < |items| ==> IsUpdate(UpdatesOf(env, items)[k], paths[k], items[k])
  {
    hide Check, Ascii, UpdatesOf;
    forall k | 0 <= k < |items| ensures IsUpdate(UpdatesOf(env, items)[k], paths[k], items[k]) {
      ItemUpdate(env, items[k]);
      assert IsGood(env, true, items[k]);
    }
  }

  lemma {:induction false} ItemUpdate(env: Env, item: Json)
    requires IsGood(env, true, item)
    ensures var c := Check(env, true, item);
            IsUpdate(Object(map[PATH_NAME() := String(c.path), VALUE_NAME() := c.value]), c.path, item)
  {
    hide RootOf, Overruns, SearchTree, ValidateStructSetValue, CutZero, UrlToPath;
    assert Ascii("path")[0] != Ascii("value")[0];
    hide Ascii;
  }

  lemma {:induction false} ServedMulti(env: Env, req: RequestMap, set_: bool, items: seq<Json>, asked: bytes, v: Level)
    requires Multi(req, set_, items) && items != [] && AllGood(env, set_, items) && ServeMulti(env, req, set_).ToService?
    requires asked == AskText(true, PathsOf(env, set_, items)) && v == JoinAll(LevelsOf(env, set_, items), 0)
    ensures PassGate(env, req, asked, v).Pass?
    ensures ServeMulti(env, req, set_).request
         == WithTokens(if set_ then req[KData := Array(UpdatesOf(env, items))] else (req - {KData})[KPath := String(asked)],
                       PassGate(env, req, asked, v))
  {
    hide IsGood, PathsOf, LevelsOf, UpdatesOf, PassGate, Aggregate, JoinAll, Listed, WithTokens, Check, Ascii;
    assert LevelsOf(env, set_, items) != [] by { LevelCount(env, set_, items); }
    AggregateIsJoin(LevelsOf(env, set_, items));
  }

  // ----- refused multi-signal requests -----

  /** The verdict on an element that names no node: by its shape, its tree, and what is found there. */
  lemma {:induction false} ShapeRefused(env: Env, item: Json)
    ensures !item.String? ==> Check(env, false, item) == Bad(Error(1, "data array element must be a path string"))
    ensures !item.Object? ==> Check(env, true, item) == Bad(Error(1, "data array element must be a path/value object"))
    ensures item.Object? && Target(true, item).None? ==> Check(env, true, item) == Bad(Error(1, "data array element missing/invalid path"))
    ensures item.Object? && Target(true, item).Some? && Ascii("value") !in item.members ==>
              Check(env, true, item) == Bad(Error(1, "data array element missing value"))
  {
    hide RootOf, Overruns, SearchTree, ValidateStructSetValue, CutZero, UrlToPath, Ascii;
  }

  /** The verdict on a well-shaped element: no tree or nothing found, an overrun, no actuator, a value that does not fit. */
  lemma {:induction false} TargetRefused(env: Env, set_: bool, item: Json)
    requires Target(set_, item).Some? && (set_ ==> Ascii("value") in item.members)
    ensures var root, path := RootOf(env.forest, Target(set_, item).value), Target(set_, item).value;
            && (root.None? || (!Overruns(root.value, path) && SearchTree(root.value, path).0 == []) ==> Check(env, set_, item) == Bad(Error(6, "")))
            && (root.Some? && Overruns(root.value, path) ==> Check(env, set_, item) == Fatal)
    ensures set_ && TargetFound(env, set_, item) && TargetMatch(env, set_, item).node.nodeType != Ascii("actuator") ==>
              Check(env, set_, item) == Bad(Error(1, "Forbidden to write to read-only resource"))
    ensures set_ && TargetFound(env, set_, item) && TargetMatch(env, set_, item).node.nodeType == Ascii("actuator") && !Passes(env, set_, item) ==>
              var value := item.members[Ascii("value")];
              if !value.Object? then Check(env, set_, item) == Bad(Error(1, "struct value must be an object"))
              else if RootOf(env.forest, TargetMatch(env, set_, item).node.dataType).None?
              then Check(env, set_, item) == Bad(Error(1, "Struct cannot be verified"))
              else Check(env, set_, item) == Bad(Error(1, "Incorrect struct data")) || Check(env, set_, item) == Fatal
  {
    hide RootOf, Overruns, SearchTree, ValidateStructSetValue, CutZero, UrlToPath, Ascii, Conforms, NestedAtMost, IsStruct;
    ActuatorText();
    if set_ && TargetFound(env, set_, item) && IsStruct(TargetMatch(env, set_, item).node) {
      StructReplies(env, map[KValue := item.members[Ascii("value")]], TargetMatch(env, set_, item).node);
    }
  }

  /** The first element that does not pass decides; then the gate. */
  lemma {:induction false} MultiRefused(env: Env, req: RequestMap, set_: bool, items: seq<Json>)
    requires Multi(req, set_, items)
    ensures items == [] ==> Serve(env, req) == ToBackend(Error(1, "missing/invalid data"))
    ensures forall i :: 0 <= i < |items| && !Passes(env, set_, items[i]) && AllPass(env, set_, items[..i]) ==>
              match Check(env, set_, items[i])
              case Bad(reply) => Serve(env, req) == ToBackend(reply)
              case Fatal => Serve(env, req) == Crash
              case Good(_, _, _) => false
    ensures items != [] && AllPass(env, set_, items) ==>
              var asked, v := AskText(true, TargetPaths(env, set_, items)), JoinAll(TargetLevels(env, set_, items), 0);
              !MayPass(env, req, asked, v) ==> Serve(env, req) == ToBackend(TokenError(RefusalCode(env, req, asked, v)))
  {
    hide Serve, Passes, TargetPaths, TargetLevels, PathsOf, LevelsOf, UpdatesOf, PassGate, MayPass, Aggregate, JoinAll, Listed, WithTokens, Check, Ascii, RefusalCode;
    MultiServed(env, req, set_, items);
    forall i | 0 <= i < |items| ensures IsGood(env, set_, items[i]) <==> Passes(env, set_, items[i]) {
      PassesIff(env, set_, items[i]);
    }
    forall i | 0 <= i < |items| && !Passes(env, set_, items[i]) && AllPass(env, set_, items[..i])
      ensures FirstBad(env, set_, items) == i
    {
      assert forall k :: 0 <= k < i ==> items[..i][k] == items[k];
    }
    if items != [] && AllPass(env, set_, items) {
      SameChecks(env, set_, items);
      var asked, v := AskText(true, TargetPaths(env, set_, items)), JoinAll(TargetLevels(env, set_, items), 0);
      assert LevelsOf(env, set_, items) != [] by { LevelCount(env, set_, items); }
      AggregateIsJoin(LevelsOf(env, set_, items));
      PassIff(env, req, asked, v);
      if !MayPass(env, req, asked, v) {
        Refused(env, req, asked, v);
      }
    }
  }

  // ----- metadata -----

  /** The request as an answer: two entries are gone, time and metadata are there, the rest is as it was. */
  ghost predicate IsAnswer(env: Env, f: RequestMap, req: RequestMap, gone: set<Key>, metadata: Json) {
    && KTimestamp in f && f[KTimestamp] == String(env.timestamp) && KMetadata in f && f[KMetadata] == metadata
    && (forall k :: k in gone ==> k !in f)
    && forall k :: k !in gone && k != KTimestamp && k != KMetadata ==> Unchanged(f, req, k)
  }

  /** Where metadata comes from: the set of trees, or a subtree; none if no tree has the path. */
  function MetadataText(env: Env, req: RequestMap, path: bytes, forest: bool, depth: int): bytes {
    if forest then env.himMetadata
    else
      match RootOf(env.forest, path)
      case None => []
      case Some(root) => env.treeMetadata(root, path, depth, req)
  }

  ghost predicate NamesForest(path: bytes) {
    path == Ascii("HIM") || exists rest :: path == Ascii("HIM.") + rest
  }

  lemma {:induction false} ForestNamed(path: bytes)
    ensures NamesForest(path) <==> AsksForest(path)
  {
    var him := Ascii("HIM.");
    hide Ascii;
    if HasPrefix(path, him) {
      assert path == him + path[|him|..];
    }
    if rest :| path == him + rest {
      assert path[..|him|] == him;
    }
  }

  /**
   A discovery: path and depth have to be texts and the depth a number; the search for a subtree may
   stop the server; an answer holds the metadata that was read, in place of path and depth.
   */
  lemma {:induction false} DiscoveryOutcome(env: Env, req0: RequestMap)
    requires IsText(req0, KAction, "discover")
    ensures StringAt(req0, KPath).None? ==> Serve(env, req0) == ToBackend(Error(1, "missing/invalid path"))
    ensures StringAt(req0, KPath).Some? && StringAt(req0, KDepth).None? ==> Serve(env, req0) == ToBackend(Error(1, "missing/invalid depth"))
    ensures StringAt(req0, KPath).Some? && StringAt(req0, KDepth).Some? && env.atoi(StringAt(req0, KDepth).value).None? ==>
              Serve(env, req0) == ToBackend(Error(1, "invalid depth"))
    ensures StringAt(req0, KPath).Some? && StringAt(req0, KDepth).Some? && env.atoi(StringAt(req0, KDepth).value).Some? ==>
              DiscoveryServed(env, req0, UrlToPath(StringAt(req0, KPath).value), env.atoi(StringAt(req0, KDepth).value).value)
  {
    hide Ascii, UrlToPath, RootOf, SubTreeOverruns, Issue, ServeMulti, AsksForest, NamesForest;
    DottedKeeps(req0);
    DiscoverIsNot();
    if StringAt(req0, KPath).Some? {
      ForestNamed(UrlToPath(StringAt(req0, KPath).value));
    }
  }

  lemma DiscoverIsNot()
    ensures Ascii("discover") != Ascii("unsubscribe")
  {
    assert Ascii("discover")[0] != Ascii("unsubscribe")[0];
  }

  ghost predicate DiscoveryServed(env: Env, req0: RequestMap, path: bytes, depth: int) {
    var req := Dotted(req0);
    var text := MetadataText(env, req, path, NamesForest(path), depth);
    if !NamesForest(path) && RootOf(env.forest, path).Some?
       && SubTreeOverruns(RootOf(env.forest, path).value, path, env.noScopeList(req)) then Serve(env, req0) == Crash
    else if text == [] || env.parseMetadata(text).None? then Serve(env, req0) == ToBackend(Error(0, ""))
    else
      && Serve(env, req0).ToBackend? && Serve(env, req0).reply.Answer?
      && IsAnswer(env, Serve(env, req0).reply.request, req, {KPath, KDepth}, env.parseMetadata(text).value)
  }

  lemma {:induction false} MetadataPlan(env: Env, req: RequestMap, root: Option<Node>, path: bytes, fs: seq<FilterObject>, i: nat)
    requires Decisive(fs, i)
    ensures fs[i].variant == Ascii("metadata") ==> PlanFilters(env, req, root, path, fs) == Metadata(env, req, root, path, fs[i].parameter)
    ensures fs[i].variant == Ascii("paths") && ExpandPathFilter(env, fs[i].parameter, path).None? ==>
              PlanFilters(env, req, root, path, fs) == Done(Error(0, ""))
    decreases |fs|
  {
    hide Ascii, Metadata, ExpandPathFilter;
    VariantsDiffer();
    if i > 0 {
      DecisiveLater(fs, i);
      MetadataPlan(env, req, root, path, fs[1..], i - 1);
      assert fs[1..][i - 1] == fs[i];
    }
  }

  /** A get of the set of trees, for which no tree is looked up. */
  ghost predicate AsksTrees(req0: RequestMap) {
    && StringAt(Dotted(req0), KPath) == Some(Ascii("HIM")) && IsText(req0, KAction, "get") && !IsNil(req0, KFilter)
  }

  /** The outcome of a request whose decisive filter asks for metadata to a depth. */
  ghost predicate MetadataServed(env: Env, req0: RequestMap, req: RequestMap, path: bytes, root: Option<Node>, parameter: bytes) {
    if env.atoi(parameter).None? then Serve(env, req0) == ToBackend(Error(0, ""))
    else
      var text := if path == Ascii("HIM") || root.None? then env.himMetadata
                  else env.treeMetadata(root.value, path, env.atoi(parameter).value, req);
      if path != Ascii("HIM") && root.Some? && SubTreeOverruns(root.value, path, env.noScopeList(req)) then Serve(env, req0) == Crash
      else if text == [] then Serve(env, req0) == ToBackend(Error(0, ""))
      else
        && Serve(env, req0).ToBackend? && Serve(env, req0).reply.Answer?
        && IsAnswer(env, Serve(env, req0).reply.request, req, {KPath, KFilter}, String(text))
  }

  /** A request about a tree whose decisive filter asks for metadata is answered with it, in place of path and filter. */
  lemma {:induction false} MetadataOutcome(env: Env, req0: RequestMap, path: bytes, root: Node, i: nat)
    requires OnTree(env, req0, path, root) && Decisive(Filters(env, req0), i) && Filters(env, req0)[i].variant == Ascii("metadata")
    ensures MetadataServed(env, req0, Dotted(req0)[KInfoType := String(env.infoType(root))], path, Some(root), Filters(env, req0)[i].parameter)
  {
    hide Serve, OnTree, Ascii, UrlToPath, SubTreeOverruns, PlanFilters, Decisive;
    var req := Dotted(req0)[KInfoType := String(env.infoType(root))];
    DottedKeeps(req0);
    Issued(env, req0, path, root);
    assert FiltersOf(env, req) == Filters(env, req0);
    MetadataPlan(env, req, Some(root), path, Filters(env, req0), i);
  }

  /** The same for the set of trees. */
  lemma {:induction false} TreesOutcome(env: Env, req0: RequestMap, i: nat)
    requires AsksTrees(req0) && Decisive(Filters(env, req0), i) && Filters(env, req0)[i].variant == Ascii("metadata")
    ensures MetadataServed(env, req0, Dotted(req0), Ascii("HIM"), None, Filters(env, req0)[i].parameter)
  {
    hide Ascii, UrlToPath, SubTreeOverruns, PlanFilters, Decisive, ServeMulti, Discover, IssueOnTree;
    ActionsDiffer();
    DottedKeeps(req0);
    assert FiltersOf(env, Dotted(req0)) == Filters(env, req0);
    MetadataPlan(env, Dotted(req0), None, Ascii("HIM"), Filters(env, req0), i);
  }

  // ----- control messages -----

  /** Control messages are handed on as they are, path aside. */
  lemma {:induction false} HandedOn(env: Env, req0: RequestMap)
    requires || IsText(req0, KAction, "unsubscribe") || IsText(req0, KAction, "internal-killsubscriptions")
             || IsText(req0, KAction, "internal-cancelsubscription")
    ensures Serve(env, req0) == ToService(Dotted(req0))
  {
    hide UrlToPath, Discover, ServeMulti, Ascii;
    DottedKeeps(req0);
    InternalIsNot();
  }

  lemma InternalIsNot()
    ensures forall s :: s in ["internal-killsubscriptions", "internal-cancelsubscription"] ==>
              Ascii(s) != Ascii("unsubscribe") && Ascii(s) != Ascii("discover") && Ascii(s) != Ascii("get") && Ascii(s) != Ascii("set")
  {
    assert Ascii("internal-killsubscriptions")[0] == 0x69 && Ascii("internal-cancelsubscription")[0] == 0x69;
    assert Ascii("unsubscribe")[0] == 0x75 && Ascii("discover")[0] == 0x64 && Ascii("get")[0] == 0x67 && Ascii("set")[0] == 0x73;
  }
}
