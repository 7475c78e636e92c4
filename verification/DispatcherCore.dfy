/** The dispatcher as it runs, sending on its two channels. */
module DispatcherCore {
  import opened ByteStrings
  import opened VssTree
  import opened AccessRights
  import opened TreeSearch
  import opened Forest
  import opened StructCheck
  import opened Dispatcher
  import opened DispatcherTheorems

  method RunResolveSignalPath(env: Env, path: bytes) returns (r: Resolution)
    ensures r == ResolveSignalPath(env, path)
  {
    hide SearchTree, Overruns;
    var root := SetRootNodePointer(env.forest, path);
    if root.None? {
      return Unresolved;
    }
    var panicked, matches, validation := RunSearchTree(root.value, path);
    if panicked {
      return Overrun;
    }
    if matches == [] {
      return Unresolved;
    }
    return Resolved(matches[0].path, matches[0].node, validation);
  }

  method RunValidateStructSetValue(p: Platform, forest: seq<HimTree>, dataType: bytes, value: Json) returns (r: ValueCheck)
    ensures r == ValidateStructSetValue(p, forest, dataType, value)
  {
    hide VerifyStruct;
    if !HasPrefix(dataType, Ascii("Types")) {
      return Accepted;
    }
    if !value.Object? {
      return Rejected("struct value must be an object");
    }
    var verdict := RunVerifyStruct(p, forest, value.members, dataType, 0);
    match verdict
    case Ok => return Accepted;
    case Unverifiable => return Rejected("Struct cannot be verified");
    case Incorrect => return Rejected("Incorrect struct data");
    case Broken => return Panicked;
  }

  method RunCheckGet(env: Env, item: Json) returns (e: Element)
    ensures e == CheckGet(env, item)
  {
    hide ResolveSignalPath;
    if !item.String? {
      return Bad(Error(1, "data array element must be a path string"));
    }
    var r := RunResolveSignalPath(env, UrlToPath(item.text));
    if r.Overrun? {
      return Fatal;
    }
    if r.Unresolved? {
      return Bad(Error(6, ""));
    }
    return Good(CutZero(r.path), Null, r.validation);
  }

  method RunCheckSet(env: Env, item: Json) returns (e: Element)
    ensures e == CheckSet(env, item)
  {
    hide ResolveSignalPath, ValidateStructSetValue, Ascii;
    if !item.Object? {
      return Bad(Error(1, "data array element must be a path/value object"));
    }
    if PATH_NAME() !in item.members || !item.members[PATH_NAME()].String? {
      return Bad(Error(1, "data array element missing/invalid path"));
    }
    if VALUE_NAME() !in item.members {
      return Bad(Error(1, "data array element missing value"));
    }
    var value := item.members[VALUE_NAME()];
    var r := RunResolveSignalPath(env, UrlToPath(item.members[PATH_NAME()].text));
    if r.Overrun? {
      return Fatal;
    }
    if r.Unresolved? {
      return Bad(Error(6, ""));
    }
    if r.node.nodeType != ACTUATOR {
      return Bad(Error(1, "Forbidden to write to read-only resource"));
    }
    var check := RunValidateStructSetValue(env.platform, env.forest, r.node.dataType, value);
    if check.Panicked? {
      return Fatal;
    }
    if check.Rejected? {
      return Bad(Error(1, check.message));
    }
    return Good(CutZero(r.path), value, r.validation);
  }

  /** The outcome of walking the elements of a multi-signal request; `Fallen` is a crash on the way. */
  datatype Walk = Failed(reply: Reply) | Fallen | Walked(text: bytes, updates: seq<Json>, maxValidation: int)

  ghost function WalkSpec(env: Env, set_: bool, items: seq<Json>): Walk {
    var i := FirstBad(env, set_, items);
    if i < |items| then
      match Check(env, set_, items[i])
      case Bad(reply) => Failed(reply)
      case _ => Fallen
    else Walked(Trailing(PathsOf(env, set_, items)), if set_ then UpdatesOf(env, items) else [], Aggregate(LevelsOf(env, set_, items), -1))
  }

  lemma {:induction false} AggregateSnoc(vs: seq<Level>, v: Level, current: int)
    ensures Aggregate(vs + [v], current) == GetMaxValidation(v, Aggregate(vs, current))
    decreases |vs|
  {
    if vs == [] {
      assert [] + [v] == [v] && [v][1..] == [];
    } else {
      assert (vs + [v])[1..] == vs[1..] + [v];
      AggregateSnoc(vs[1..], v, GetMaxValidation(vs[0], current));
    }
  }

  lemma {:induction false} WalkOn(env: Env, set_: bool, items: seq<Json>, i: nat)
    requires i < |items| && AllGood(env, set_, items[..i]) && IsGood(env, set_, items[i])
    ensures var e := Check(env, set_, items[i]);
            && AllGood(env, set_, items[..i + 1])
            && Trailing(PathsOf(env, set_, items[..i + 1])) == Trailing(PathsOf(env, set_, items[..i])) + Quoted(e.path) + COMMA_SPACE
            && Aggregate(LevelsOf(env, set_, items[..i + 1]), -1)
               == GetMaxValidation(e.validation, Aggregate(LevelsOf(env, set_, items[..i]), -1))
            && (set_ ==> UpdatesOf(env, items[..i + 1])
                         == UpdatesOf(env, items[..i]) + [Object(map[PATH_NAME() := String(e.path), VALUE_NAME() := e.value])])
  {
    hide Check, Quoted, Aggregate, Ascii;
    var e := Check(env, set_, items[i]);
    assert items[..i + 1] == items[..i] + [items[i]];
    var ps := PathsOf(env, set_, items[..i + 1]);
    assert ps == PathsOf(env, set_, items[..i]) + [e.path];
    assert ps[..|ps| - 1] == PathsOf(env, set_, items[..i]);
    assert LevelsOf(env, set_, items[..i + 1]) == LevelsOf(env, set_, items[..i]) + [e.validation];
    AggregateSnoc(LevelsOf(env, set_, items[..i]), e.validation, -1);
  }

  lemma {:induction false} FirstBadIs(env: Env, set_: bool, items: seq<Json>, i: nat)
    requires i <= |items| && AllGood(env, set_, items[..i]) && (i < |items| ==> !IsGood(env, set_, items[i]))
    ensures FirstBad(env, set_, items) == i
  {
    hide IsGood, FirstBad;
    var j := FirstBad(env, set_, items);
    assert forall k :: 0 <= k < i ==> items[..i][k] == items[k];
  }

  class Core {
    var backend: seq<Reply>
    var service: seq<RequestMap>

    /** One message is sent, on the channel and with the content that the outcome says. */
    twostate predicate Sent(outcome: Outcome)
      reads this
    {
      match outcome
      case ToService(r) => service == old(service) + [r] && backend == old(backend)
      case ToBackend(r) => backend == old(backend) + [r] && service == old(service)
      case Crash => service == old(service) && backend == old(backend)
    }

    method WalkGets(env: Env, items: seq<Json>) returns (w: Walk)
      ensures w == WalkSpec(env, false, items)
    {
      hide CheckGet, Trailing, Aggregate, Quoted, FirstBad;
      var paths: bytes := [];
      var maxValidation := -1;
      var i := 0;
      WalkStart(env, false, items);
      while i < |items|
        invariant 0 <= i <= |items| && AllGood(env, false, items[..i])
        invariant paths == Trailing(PathsOf(env, false, items[..i]))
        invariant maxValidation == Aggregate(LevelsOf(env, false, items[..i]), -1)
      {
        var e := RunCheckGet(env, items[i]);
        if !e.Good? {
          FirstBadIs(env, false, items, i);
          return if e.Bad? then Failed(e.reply) else Fallen;
        }
        WalkOn(env, false, items, i);
        paths := paths + Quoted(e.path) + COMMA_SPACE;
        maxValidation := GetMaxValidation(e.validation, maxValidation);
        i := i + 1;
      }
      assert items[..i] == items;
      FirstBadIs(env, false, items, i);
      return Walked(paths, [], maxValidation);
    }

    method WalkSets(env: Env, items: seq<Json>) returns (w: Walk)
      ensures w == WalkSpec(env, true, items)
    {
      hide CheckSet, Trailing, Aggregate, Quoted, FirstBad, Ascii;
      var paths: bytes := [];
      var resolved: seq<Json> := [];
      var maxValidation := -1;
      var i := 0;
      WalkStart(env, true, items);
      while i < |items|
        invariant 0 <= i <= |items| && AllGood(env, true, items[..i])
        invariant paths == Trailing(PathsOf(env, true, items[..i]))
        invariant resolved == UpdatesOf(env, items[..i])
        invariant maxValidation == Aggregate(LevelsOf(env, true, items[..i]), -1)
      {
        var e := RunCheckSet(env, items[i]);
        if !e.Good? {
          FirstBadIs(env, true, items, i);
          return if e.Bad? then Failed(e.reply) else Fallen;
        }
        WalkOn(env, true, items, i);
        paths := paths + Quoted(e.path) + COMMA_SPACE;
        resolved := resolved + [Object(map[PATH_NAME() := String(e.path), VALUE_NAME() := e.value])];
        maxValidation := GetMaxValidation(e.validation, maxValidation);
        i := i + 1;
      }
      assert items[..i] == items;
      FirstBadIs(env, true, items, i);
      return Walked(paths, resolved, maxValidation);
    }

    method HandleMultiRequest(env: Env, req: RequestMap, set_: bool) returns (crashed: bool)
      requires KData in req && req[KData].Array?
      modifies this
      ensures Sent(ServeMulti(env, req, set_)) && crashed == (ServeMulti(env, req, set_) == Crash)
    {
      hide Check, Trailing, Aggregate, Listed, PassGate, TrimTwo, WithTokens, PathsOf, LevelsOf, UpdatesOf;
      crashed := false;
      var items := req[KData].items;
      if items == [] {
        backend := backend + [Error(1, "missing/invalid data")];
        return;
      }
      var w;
      if set_ {
        w := WalkSets(env, items);
      } else {
        w := WalkGets(env, items);
      }
      if w.Failed? {
        backend := backend + [w.reply];
        return;
      }
      if w.Fallen? {
        return true;
      }
      TrimTrailing(PathsOf(env, set_, items));
      var paths := Bracketed(TrimTwo(w.text));
      var g := PassGate(env, req, paths, w.maxValidation);
      if g.Stop? {
        backend := backend + [g.reply];
        return;
      }
      var req1 := if set_ then req[KData := Array(w.updates)] else (req - {KData})[KPath := String(paths)];
      service := service + [WithTokens(req1, g)];
    }

    /** Searches path after path; the first path that does not pass ends the search. */
    method SearchPaths(env: Env, req: RequestMap, root: Node, ps: seq<bytes>)
      returns (check: PathCheck, text: bytes, total: nat, last: seq<Match>, maxValidation: int)
      requires ps != []
      ensures var i := FirstFailing(env, req, root, ps);
              if i < |ps| then check == CheckPath(env, req, root, ps[i])
              else
                && check == PathFine && last == SearchTree(root, ps[|ps| - 1]).0
                && text == Trailing(MatchedPaths(root, ps)) && total == |MatchedPaths(root, ps)|
                && maxValidation == Aggregate(SearchLevels(root, ps), -1)
    {
      hide SearchTree, Overruns, Trailing, Aggregate, Quoted, FirstFailing, CheckPath;
      check, text, total, last, maxValidation := PathFine, [], 0, [], -1;
      var i := 0;
      SearchStart(root, ps);
      while i < |ps|
        invariant 0 <= i <= |ps| && check == PathFine
        invariant forall k :: 0 <= k < i ==> IsFine(env, req, root, ps[k])
        invariant text == Trailing(MatchedPaths(root, ps[..i])) && total == |MatchedPaths(root, ps[..i])|
        invariant maxValidation == Aggregate(SearchLevels(root, ps[..i]), -1)
        invariant i > 0 ==> last == SearchTree(root, ps[i - 1]).0
      {
        var panicked, validation;
        panicked, last, validation := RunSearchTree(root, ps[i]);
        if panicked {
          check := PathFatal;
          FatalPath(env, req, root, ps[i]);
          return;
        }
        var quoted := QuoteAll(MatchedPaths(root, ps[..i]), last);
        text := text + quoted;
        check := RunCheckPath(env, req, root, ps[i], last);
        if !check.PathFine? {
          return;
        }
        SearchOn(root, ps, i);
        total := total + |last|;
        maxValidation := GetMaxValidation(validation, maxValidation);
        i := i + 1;
      }
      assert ps[..i] == ps;
    }

    method IssueServiceRequest(env: Env, req0: RequestMap) returns (crashed: bool)
      modifies this
      ensures Sent(Issue(env, req0)) && crashed == (Issue(env, req0) == Crash)
    {
      hide IsText, IsInternalAction, NeedsNoTree, PlanOf, RootOf, IssueOnTree;
      crashed := false;
      if IsInternalAction(req0) {
        service := service + [req0];
        return;
      }
      var path := StringAt(req0, KPath);
      if path.None? {
        backend := backend + [Error(1, "missing/invalid path")];
        return;
      }
      var rootPath := path.value;
      if NeedsNoTree(req0, rootPath) {
        var plan := PlanOf(env, req0, None, rootPath);
        if plan.Done? {
          backend := backend + [plan.reply];
        } else {
          crashed := true;
        }
        return;
      }
      var root := SetRootNodePointer(env.forest, rootPath);
      if root.None? {
        backend := backend + [Error(0, "")];
        return;
      }
      crashed := IssueOnRoot(env, req0[KInfoType := String(env.infoType(root.value))], root.value, rootPath);
    }

    method IssueOnRoot(env: Env, req: RequestMap, root: Node, rootPath: bytes) returns (crashed: bool)
      modifies this
      ensures Sent(IssueOnTree(env, req, root, rootPath)) && crashed == (IssueOnTree(env, req, root, rootPath) == Crash)
    {
      hide PlanOf, SearchTree, Trailing, Listed, Aggregate, PassGate, CheckPath, ValidateData,
        MatchedPaths, Contains, Ascii, WithTokens, TrimTwo, Quoted, Bracketed;
      crashed := false;
      var plan := PlanOf(env, req, Some(root), rootPath);
      if plan.Done? {
        backend := backend + [plan.reply];
        return;
      }
      if plan.PlanFatal? {
        return true;
      }
      PlanNonEmpty(env, req, Some(root), rootPath);
      var ps := plan.paths;
      var check, paths, total, last, maxValidation := SearchPaths(env, req, root, ps);
      if check.PathError? {
        backend := backend + [check.reply];
        return;
      }
      if check.PathFatal? {
        return true;
      }
      NoFailure(env, req, root, ps);
      if Contains(last[0].node.dataType, Ascii(FILE_DESCRIPTOR)) {
        backend := backend + [Transfer(env.transfer(req, last[0].node.nodeType, ps[0]))];
        return;
      }
      var invalid := ValidateData(env, req, last[0]);
      if invalid.Some? {
        backend := backend + [invalid.value];
        return;
      }
      ghost var found := MatchedPaths(root, ps);
      FoundSome(env, req, root, ps);
      TrimTrailing(found);
      paths := TrimTwo(paths);
      if total > 1 {
        paths := Bracketed(paths);
      }
      var g := PassGate(env, req, paths, maxValidation);
      if g.Stop? {
        backend := backend + [g.reply];
        return;
      }
      if total == 1 {
        ListedOne(found);
        paths := paths[1..|paths| - 1];
      }
      service := service + [WithTokens(req[KPath := String(paths)], g)];
    }

    /** Serves one request: exactly one message in total, unless the request stops the server. */
    method ServeRequest(env: Env, req0: RequestMap) returns (crashed: bool)
      modifies this
      ensures crashed == (Serve(env, req0) == Crash) && Sent(Serve(env, req0))
      ensures |backend| + |service| == old(|backend| + |service|) + if crashed then 0 else 1
    {
      hide IsText, IsMultiSignal, Discover, ServeMulti, Issue;
      crashed := false;
      var req := Dotted(req0);
      if IsText(req, KAction, "unsubscribe") {
        service := service + [req];
        return;
      }
      if IsText(req, KAction, "discover") {
        var outcome := Discover(env, req);
        DiscoverCrashIff(env, req);
        if outcome.ToBackend? {
          backend := backend + [outcome.reply];
        }
        return outcome == Crash;
      }
      if IsMultiSignal(req) {
        MultiHasData(req);
        crashed := HandleMultiRequest(env, req, !IsText(req, KAction, "get"));
        return;
      }
      crashed := IssueServiceRequest(env, req);
    }
  }

  lemma MultiHasData(req: RequestMap)
    requires IsMultiSignal(req)
    ensures KData in req && req[KData].Array?
  {
  }

  lemma {:induction false} WalkStart(env: Env, set_: bool, items: seq<Json>)
    ensures AllGood(env, set_, items[..0]) && Trailing(PathsOf(env, set_, items[..0])) == []
    ensures Aggregate(LevelsOf(env, set_, items[..0]), -1) == -1
    ensures set_ ==> UpdatesOf(env, items[..0]) == []
  {
    hide Check, Ascii;
  }

  lemma {:induction false} SearchStart(root: Node, ps: seq<bytes>)
    ensures MatchedPaths(root, ps[..0]) == [] && Trailing([]) == [] && Aggregate(SearchLevels(root, ps[..0]), -1) == -1
  {
    hide SearchTree;
    assert ps[..0] == [];
  }

  lemma {:induction false} SearchOn(root: Node, ps: seq<bytes>, i: nat)
    requires i < |ps|
    ensures MatchedPaths(root, ps[..i + 1]) == MatchedPaths(root, ps[..i]) + NodePaths(SearchTree(root, ps[i]).0)
    ensures Aggregate(SearchLevels(root, ps[..i + 1]), -1)
         == GetMaxValidation(SearchTree(root, ps[i]).1, Aggregate(SearchLevels(root, ps[..i]), -1))
  {
    hide SearchTree, Aggregate, NodePaths;
    assert ps[..i + 1][..i] == ps[..i];
    assert SearchLevels(root, ps[..i + 1]) == SearchLevels(root, ps[..i]) + [SearchTree(root, ps[i]).1];
    AggregateSnoc(SearchLevels(root, ps[..i]), SearchTree(root, ps[i]).1, -1);
  }

  /** The quoted paths of the matches, each followed by ", ". */
  lemma TrailingNext(paths: seq<bytes>, p: bytes)
    ensures Trailing(paths + [p]) == Trailing(paths) + Quoted(p) + COMMA_SPACE
  {
    hide Quoted;
    assert (paths + [p])[..|paths|] == paths;
  }

  method QuoteAll(ghost before: seq<bytes>, matches: seq<Match>) returns (text: bytes)
    ensures Trailing(before) + text == Trailing(before + NodePaths(matches))
  {
    hide Quoted, CutZero, Trailing;
    text := [];
    var i := 0;
    assert before + NodePaths(matches)[..0] == before;
    while i < |matches|
      invariant 0 <= i <= |matches|
      invariant Trailing(before) + text == Trailing(before + NodePaths(matches)[..i])
    {
      ghost var now := before + NodePaths(matches)[..i];
      ghost var next := before + NodePaths(matches)[..i + 1];
      var p := CutZero(matches[i].path);
      assert next == now + [p];
      TrailingNext(now, p);
      text := text + Quoted(p) + COMMA_SPACE;
      i := i + 1;
    }
    assert NodePaths(matches)[..i] == NodePaths(matches);
  }

  method RunCheckPath(env: Env, req: RequestMap, root: Node, path: bytes, matches: seq<Match>) returns (check: PathCheck)
    requires !Overruns(root, path) && matches == SearchTree(root, path).0
    ensures check == CheckPath(env, req, root, path)
  {
    hide SearchTree, Overruns, ValidateStructSetValue, Ascii;
    if matches == [] {
      return PathError(Error(6, ""));
    }
    if IsText(req, KAction, "set") {
      var value := if KValue in req then req[KValue] else Null;
      var r := RunValidateStructSetValue(env.platform, env.forest, matches[0].node.dataType, value);
      if r.Panicked? {
        return PathFatal;
      }
      if r.Rejected? {
        return PathError(Error(1, r.message));
      }
    }
    return PathFine;
  }

  lemma {:induction false} FatalPath(env: Env, req: RequestMap, root: Node, path: bytes)
    requires Overruns(root, path)
    ensures CheckPath(env, req, root, path) == PathFatal
  {
    hide SearchTree, Overruns, ValidateStructSetValue, Ascii;
  }

  lemma {:induction false} NoFailure(env: Env, req: RequestMap, root: Node, ps: seq<bytes>)
    requires ps != [] && FirstFailing(env, req, root, ps) == |ps|
    ensures SearchTree(root, ps[|ps| - 1]).0 != []
  {
    hide SearchTree, Overruns, FirstFailing, ValidateStructSetValue;
    assert IsFine(env, req, root, ps[|ps| - 1]);
  }

  lemma {:induction false} FoundSome(env: Env, req: RequestMap, root: Node, ps: seq<bytes>)
    requires ps != [] && SearchTree(root, ps[|ps| - 1]).0 != []
    ensures MatchedPaths(root, ps) != []
  {
    hide SearchTree;
  }

  lemma ListedOne(ps: seq<bytes>)
    requires |ps| == 1
    ensures |Listed(ps)| >= 2 && Listed(ps)[1..|Listed(ps)| - 1] == ps[0]
  {
  }
}
