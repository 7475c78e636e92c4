/**
 The request dispatcher: what becomes of a client request. Each request is answered on the backend
 channel or forwarded to the service manager. Calls into code outside the dispatcher (token server,
 JSON text, metadata, file transfer) are the fields of `Env`; nothing is assumed of them.
 */
module Dispatcher {
  import opened ByteStrings
  import opened VssTree
  import opened AccessRights
  import opened TreeSearch
  import opened Forest
  import opened StructCheck

  // ----- requests and answers -----

  datatype Key =
    | KAction | KPath | KData | KFilter | KAuthorization | KOrigin | KValue | KDepth
    | KMetadata | KTimestamp | KHandle | KGatingId | KInfoType | KOther(name: bytes)

  type RequestMap = map<Key, Json>

  datatype Reply =
    | Error(index: int, description: string)
    | TokenError(code: int)
    | Answer(request: RequestMap)
    | Transfer(response: Json)

  datatype Outcome = ToService(request: RequestMap) | ToBackend(reply: Reply) | Crash

  datatype FilterObject = FilterObject(variant: bytes, parameter: bytes)

  datatype TokenReply = TokenReply(code: int, handle: bytes, gatingId: bytes)

  datatype Env = Env(
    platform: Platform,
    forest: seq<HimTree>,
    verifyToken: (bytes, bytes, bytes, int) -> TokenReply,
    unpackFilter: Json -> seq<FilterObject>,
    parsePathArray: bytes -> Option<seq<bytes>>,
    filterError: seq<FilterObject> -> Option<(int, string)>,
    atoi: bytes -> Option<int>,
    noScopeList: RequestMap -> seq<bytes>,
    treeMetadata: (Node, bytes, int, RequestMap) -> bytes,
    himMetadata: bytes,
    parseMetadata: bytes -> Option<Json>,
    transfer: (RequestMap, bytes, bytes) -> Json,
    infoType: Node -> bytes,
    timestamp: bytes)

  function StringAt(m: RequestMap, k: Key): Option<bytes> {
    if k in m && m[k].String? then Some(m[k].text) else None
  }

  predicate IsText(m: RequestMap, k: Key, s: string) {
    StringAt(m, k) == Some(Ascii(s))
  }

  predicate IsNil(m: RequestMap, k: Key) {
    k !in m || m[k].Null?
  }

  function ActionOf(req: RequestMap): bytes {
    match StringAt(req, KAction) case None => [] case Some(a) => a
  }

  const SLASH: byte := 0x2F

  /** Slashes become dots; one leading dot is dropped. */
  function UrlToPath(url: bytes): bytes {
    var dotted := seq(|url|, i requires 0 <= i < |url| => if url[i] == SLASH then DOT else url[i]);
    if dotted != [] && dotted[0] == DOT then dotted[1..] else dotted
  }

  /** The path up to a zero byte. */
  function CutZero(path: bytes): bytes {
    if path == [] || path[0] == 0 then [] else [path[0]] + CutZero(path[1..])
  }

  // ----- path lists as text -----

  const QUOTE: bytes := [0x22]
  const COMMA_SPACE: bytes := [0x2C, 0x20]

  function Quoted(p: bytes): bytes { QUOTE + p + QUOTE }

  /** Quoted paths with ", " after each. */
  function Trailing(ps: seq<bytes>): bytes {
    if ps == [] then [] else Trailing(ps[..|ps| - 1]) + Quoted(ps[|ps| - 1]) + COMMA_SPACE
  }

  /** Quoted paths with ", " between them. */
  function Listed(ps: seq<bytes>): bytes {
    if |ps| == 0 then []
    else if |ps| == 1 then Quoted(ps[0])
    else Listed(ps[..|ps| - 1]) + COMMA_SPACE + Quoted(ps[|ps| - 1])
  }

  function TrimTwo(s: bytes): bytes {
    if |s| >= 2 then s[..|s| - 2] else s
  }

  lemma {:induction false} TrimTrailing(ps: seq<bytes>)
    requires ps != []
    ensures |Trailing(ps)| >= 4 && TrimTwo(Trailing(ps)) == Listed(ps) && Trailing(ps) == Listed(ps) + COMMA_SPACE
  {
    var init, last := ps[..|ps| - 1], ps[|ps| - 1];
    if |ps| == 1 {
      assert Trailing(ps) == Quoted(last) + COMMA_SPACE;
    } else {
      TrimTrailing(init);
    }
    assert Trailing(ps) == Listed(ps) + COMMA_SPACE;
  }

  function Bracketed(s: bytes): bytes { [0x5B] + s + [0x5D] }

  // ----- access -----

  datatype Gate = Pass(handle: bytes, gatingId: bytes) | Stop(reply: Reply)

  /** The remainder as the program computes it, keeping the sign. */
  function Rem10(v: int): int {
    if v >= 0 then v % 10 else -((-v) % 10)
  }

  function AuthorizeAccess(env: Env, req: RequestMap, paths: bytes, maxValidation: int): TokenReply {
    if IsNil(req, KAuthorization) then TokenReply(2, [], [])
    else if ActionOf(req) != Ascii("set") && Rem10(maxValidation) != 2 then TokenReply(0, [], [])
    else
      match StringAt(req, KAuthorization)
      case None => TokenReply(1, [], [])
      case Some(token) => env.verifyToken(token, ActionOf(req), paths, maxValidation)
  }

  function PassGate(env: Env, req: RequestMap, paths: bytes, maxValidation: int): Gate {
    var needed := if IsText(req, KOrigin, "internal") then 0 else maxValidation;
    if Rem10(needed) == 0 then Pass([], [])
    else if Rem10(needed) == 1 || Rem10(needed) == 2 then
      var r := AuthorizeAccess(env, req, paths, needed);
      if r.code != 0 then Stop(TokenError(r.code)) else Pass(r.handle, r.gatingId)
    else Stop(Error(7, ""))
  }

  function WithTokens(req: RequestMap, g: Gate): RequestMap
    requires g.Pass?
  {
    var r1 := if g.handle != [] then req[KHandle := String(g.handle)] else req;
    if g.gatingId != [] then r1[KGatingId := String(g.gatingId)] else r1
  }

  /** The combination over the paths of a request, from the initial -1. */
  function Aggregate(vs: seq<Level>, current: int): int
    decreases |vs|
  {
    if vs == [] then current else Aggregate(vs[1..], GetMaxValidation(vs[0], current))
  }

  lemma {:induction false} AggregateLevels(vs: seq<Level>, current: Level)
    ensures Aggregate(vs, current) == JoinAll(vs, current)
    decreases |vs|
  {
    if vs != [] {
      assert IsLevel(vs[0]) && IsLevel(current);
      AggregateLevels(vs[1..], SearchMax(vs[0], current));
    }
  }

  /** The first value replaces the -1; after that the combination is the one used in searches. */
  lemma {:induction false} AggregateIsJoin(vs: seq<Level>)
    requires vs != []
    ensures Aggregate(vs, -1) == JoinAll(vs, 0)
  {
    assert IsLevel(vs[0]);
    assert GetMaxValidation(vs[0], -1) == SearchMax(vs[0], 0);
    AggregateLevels(vs[1..], SearchMax(vs[0], 0));
  }

  // ----- resolving one signal -----

  datatype Resolution = Resolved(path: bytes, node: Node, validation: Level) | Unresolved | Overrun

  function ResolveSignalPath(env: Env, path: bytes): Resolution {
    match RootOf(env.forest, path)
    case None => Unresolved
    case Some(root) =>
      if Overruns(root, path) then Overrun
      else
        var r := SearchTree(root, path);
        if r.0 == [] then Unresolved else Resolved(r.0[0].path, r.0[0].node, r.1)
  }

  /** The verdict on one element of a multi-signal request; `Fatal` stops the server. */
  datatype Element = Bad(reply: Reply) | Good(path: bytes, value: Json, validation: Level) | Fatal

  function CheckGet(env: Env, item: Json): Element {
    if !item.String? then Bad(Error(1, "data array element must be a path string"))
    else
      match ResolveSignalPath(env, UrlToPath(item.text))
      case Unresolved => Bad(Error(6, ""))
      case Overrun => Fatal
      case Resolved(path, _, validation) => Good(CutZero(path), Null, validation)
  }

  function PATH_NAME(): bytes { Ascii("path") }
  function VALUE_NAME(): bytes { Ascii("value") }

  function CheckSet(env: Env, item: Json): Element {
    if !item.Object? then Bad(Error(1, "data array element must be a path/value object"))
    else if PATH_NAME() !in item.members || !item.members[PATH_NAME()].String? then
      Bad(Error(1, "data array element missing/invalid path"))
    else if VALUE_NAME() !in item.members then Bad(Error(1, "data array element missing value"))
    else
      var value := item.members[VALUE_NAME()];
      match ResolveSignalPath(env, UrlToPath(item.members[PATH_NAME()].text))
      case Unresolved => Bad(Error(6, ""))
      case Overrun => Fatal
      case Resolved(path, node, validation) =>
        if node.nodeType != ACTUATOR then Bad(Error(1, "Forbidden to write to read-only resource"))
        else
          match ValidateStructSetValue(env.platform, env.forest, node.dataType, value)
          case Rejected(message) => Bad(Error(1, message))
          case Panicked => Fatal
          case Accepted => Good(CutZero(path), value, validation)
  }

  function Check(env: Env, set_: bool, item: Json): Element {
    if set_ then CheckSet(env, item) else CheckGet(env, item)
  }

  predicate IsGood(env: Env, set_: bool, item: Json) { Check(env, set_, item).Good? }

  /** Index of the first element that does not pass, or their number. */
  function FirstBad(env: Env, set_: bool, items: seq<Json>): (i: nat)
    ensures i <= |items| && (i < |items| ==> !IsGood(env, set_, items[i]))
    ensures forall k :: 0 <= k < i ==> IsGood(env, set_, items[k])
  {
    hide IsGood;
    IndexOf(Goods(env, set_, items), false)
  }

  function Goods(env: Env, set_: bool, items: seq<Json>): (gs: seq<bool>)
    ensures |gs| == |items| && forall k :: 0 <= k < |items| ==> gs[k] == IsGood(env, set_, items[k])
  {
    hide IsGood;
    seq(|items|, k requires 0 <= k < |items| => IsGood(env, set_, items[k]))
  }

  ghost predicate AllGood(env: Env, set_: bool, items: seq<Json>) {
    forall k :: 0 <= k < |items| ==> IsGood(env, set_, items[k])
  }

  function PathsOf(env: Env, set_: bool, items: seq<Json>): (ps: seq<bytes>)
    requires AllGood(env, set_, items)
    ensures |ps| == |items| && forall k :: 0 <= k < |items| ==> ps[k] == Check(env, set_, items[k]).path
  {
    seq(|items|, k requires 0 <= k < |items| => Check(env, set_, items[k]).path)
  }

  function LevelsOf(env: Env, set_: bool, items: seq<Json>): (vs: seq<Level>)
    requires AllGood(env, set_, items)
    ensures |vs| == |items| && forall k :: 0 <= k < |items| ==> vs[k] == Check(env, set_, items[k]).validation
  {
    seq(|items|, k requires 0 <= k < |items| => Check(env, set_, items[k]).validation)
  }

  /** The elements as forwarded: each with its resolved path and its own value. */
  function UpdatesOf(env: Env, items: seq<Json>): (us: seq<Json>)
    requires AllGood(env, true, items)
    ensures |us| == |items|
    ensures forall k :: 0 <= k < |items| ==>
              us[k] == Object(map[PATH_NAME() := String(Check(env, true, items[k]).path),
                                  VALUE_NAME() := Check(env, true, items[k]).value])
  {
    seq(|items|, k requires 0 <= k < |items| =>
      Object(map[PATH_NAME() := String(Check(env, true, items[k]).path), VALUE_NAME() := Check(env, true, items[k]).value]))
  }

  // ----- multi-signal requests -----

  predicate IsMultiSignal(req: RequestMap) {
    (IsText(req, KAction, "get") || IsText(req, KAction, "set")) && KPath !in req && KData in req && req[KData].Array?
  }

  function ServeMulti(env: Env, req: RequestMap, set_: bool): Outcome
    requires KData in req && req[KData].Array?
  {
    var items := req[KData].items;
    if items == [] then ToBackend(Error(1, "missing/invalid data"))
    else
      var i := FirstBad(env, set_, items);
      if i < |items| then
        match Check(env, set_, items[i])
        case Bad(reply) => ToBackend(reply)
        case Fatal => Crash
      else
        var paths := Bracketed(Listed(PathsOf(env, set_, items)));
        match PassGate(env, req, paths, Aggregate(LevelsOf(env, set_, items), -1))
        case Stop(reply) => ToBackend(reply)
        case Pass(h, g) =>
          var req1 := if set_ then req[KData := Array(UpdatesOf(env, items))]
                      else (req - {KData})[KPath := String(paths)];
          ToService(WithTokens(req1, Pass(h, g)))
  }

  // ----- single-path requests -----

  predicate IsInternalAction(req: RequestMap) {
    IsText(req, KAction, "internal-killsubscriptions") || IsText(req, KAction, "internal-cancelsubscription")
  }

  predicate IsHim(path: bytes) { path == Ascii("HIM") }

  function ExpandPathFilter(env: Env, parameter: bytes, rootPath: bytes): Option<seq<bytes>> {
    if 0x5B in parameter then
      match env.parsePathArray(parameter)
      case None => None
      case Some(ps) => Some(seq(|ps|, i requires 0 <= i < |ps| => rootPath + [DOT] + UrlToPath(ps[i])))
    else Some([rootPath + [DOT] + UrlToPath(parameter)])
  }

  datatype Plan = Paths(paths: seq<bytes>) | Done(reply: Reply) | PlanFatal

  function Metadata(env: Env, req: RequestMap, root: Option<Node>, rootPath: bytes, parameter: bytes): (plan: Plan)
    ensures !plan.Paths?
  {
    match env.atoi(parameter)
    case None => Done(Error(0, ""))
    case Some(depth) =>
      if IsHim(rootPath) || root.None? then Done(Described(env, req, env.himMetadata))
      else if SubTreeOverruns(root.value, rootPath, env.noScopeList(req)) then PlanFatal
      else Done(Described(env, req, env.treeMetadata(root.value, rootPath, depth, req)))
  }

  function Described(env: Env, req: RequestMap, text: bytes): Reply {
    if text == [] then Error(0, "")
    else Answer((req - {KPath, KFilter})[KTimestamp := String(env.timestamp)][KMetadata := String(text)])
  }

  /** The first "paths" or "metadata" filter decides. */
  function PlanFilters(env: Env, req: RequestMap, root: Option<Node>, rootPath: bytes, fs: seq<FilterObject>): Plan
    decreases |fs|
  {
    if fs == [] then Paths([])
    else if fs[0].variant == Ascii("paths") then
      match ExpandPathFilter(env, fs[0].parameter, rootPath)
      case None => Done(Error(0, ""))
      case Some(ps) => Paths(ps)
    else if fs[0].variant == Ascii("metadata") then Metadata(env, req, root, rootPath, fs[0].parameter)
    else PlanFilters(env, req, root, rootPath, fs[1..])
  }

  function FiltersOf(env: Env, req: RequestMap): seq<FilterObject> {
    if IsNil(req, KFilter) then [] else env.unpackFilter(req[KFilter])
  }

  /** The paths to search; the root path alone when no filter names any. */
  function PlanOf(env: Env, req: RequestMap, root: Option<Node>, rootPath: bytes): Plan {
    match PlanFilters(env, req, root, rootPath, FiltersOf(env, req))
    case Done(reply) => Done(reply)
    case PlanFatal => PlanFatal
    case Paths(ps) => Paths(if ps == [] then [rootPath] else ps)
  }

  datatype PathCheck = PathFine | PathError(reply: Reply) | PathFatal

  /** What becomes of one searched path. */
  function CheckPath(env: Env, req: RequestMap, root: Node, path: bytes): PathCheck {
    var matches := SearchTree(root, path).0;
    if Overruns(root, path) then PathFatal
    else if matches == [] then PathError(Error(6, ""))
    else if IsText(req, KAction, "set") then
      var value := if KValue in req then req[KValue] else Null;
      match ValidateStructSetValue(env.platform, env.forest, matches[0].node.dataType, value)
      case Rejected(message) => PathError(Error(1, message))
      case Panicked => PathFatal
      case Accepted => PathFine
    else PathFine
  }

  predicate IsFine(env: Env, req: RequestMap, root: Node, path: bytes) {
    CheckPath(env, req, root, path).PathFine?
  }

  /** The first path that does not pass, or the number of paths. */
  function FirstFailing(env: Env, req: RequestMap, root: Node, ps: seq<bytes>): (i: nat)
    ensures i <= |ps| && (i < |ps| ==> !IsFine(env, req, root, ps[i]))
    ensures forall k :: 0 <= k < i ==> IsFine(env, req, root, ps[k])
  {
    hide IsFine;
    IndexOf(FinePaths(env, req, root, ps), false)
  }

  function FinePaths(env: Env, req: RequestMap, root: Node, ps: seq<bytes>): (fs: seq<bool>)
    ensures |fs| == |ps| && forall k :: 0 <= k < |ps| ==> fs[k] == IsFine(env, req, root, ps[k])
  {
    hide IsFine;
    seq(|ps|, k requires 0 <= k < |ps| => IsFine(env, req, root, ps[k]))
  }

  /** All matched paths, path by path. */
  function MatchedPaths(root: Node, ps: seq<bytes>): seq<bytes> {
    if ps == [] then [] else MatchedPaths(root, ps[..|ps| - 1]) + NodePaths(SearchTree(root, ps[|ps| - 1]).0)
  }

  function NodePaths(ms: seq<Match>): (ps: seq<bytes>)
    ensures |ps| == |ms|
  {
    seq(|ms|, i requires 0 <= i < |ms| => CutZero(ms[i].path))
  }

  function SearchLevels(root: Node, ps: seq<bytes>): (vs: seq<Level>)
    ensures |vs| == |ps| && forall i :: 0 <= i < |ps| ==> vs[i] == SearchTree(root, ps[i]).1
  {
    seq(|ps|, i requires 0 <= i < |ps| => SearchTree(root, ps[i]).1)
  }

  const FILE_DESCRIPTOR: string := ".FileDescriptor"

  function ValidateData(env: Env, req: RequestMap, first: Match): Option<Reply> {
    if IsText(req, KAction, "set") && first.node.nodeType != ACTUATOR then
      Some(Error(1, "Forbidden to write to read-only resource"))
    else if IsNil(req, KFilter) then None
    else
      match env.filterError(FiltersOf(env, req))
      case None => None
      case Some(e) => Some(Error(e.0, e.1))
  }

  /** What follows once every path has been searched without error. */
  function Conclude(env: Env, req: RequestMap, root: Node, ps: seq<bytes>): Outcome
    requires ps != [] && forall k :: 0 <= k < |ps| ==> IsFine(env, req, root, ps[k])
  {
    assert IsFine(env, req, root, ps[|ps| - 1]);
    var last := SearchTree(root, ps[|ps| - 1]).0;
    if Contains(last[0].node.dataType, Ascii(FILE_DESCRIPTOR)) then
      ToBackend(Transfer(env.transfer(req, last[0].node.nodeType, ps[0])))
    else
      match ValidateData(env, req, last[0])
      case Some(reply) => ToBackend(reply)
      case None =>
        var found := MatchedPaths(root, ps);
        match PassGate(env, req, AskedFor(found), Aggregate(SearchLevels(root, ps), -1))
        case Stop(reply) => ToBackend(reply)
        case Pass(h, g) =>
          var path := if |found| == 1 then found[0] else AskedFor(found);
          ToService(WithTokens(req[KPath := String(path)], Pass(h, g)))
  }

  /** A single path stands quoted by itself, several between brackets. */
  function AskedFor(found: seq<bytes>): bytes {
    if |found| == 1 then Listed(found) else Bracketed(Listed(found))
  }

  predicate NeedsNoTree(req: RequestMap, rootPath: bytes) {
    IsHim(rootPath) && IsText(req, KAction, "get") && !IsNil(req, KFilter)
  }

  function Issue(env: Env, req: RequestMap): Outcome {
    if IsInternalAction(req) then ToService(req)
    else
      match StringAt(req, KPath)
      case None => ToBackend(Error(1, "missing/invalid path"))
      case Some(rootPath) =>
        if NeedsNoTree(req, rootPath) then
          match PlanOf(env, req, None, rootPath)
          case Done(reply) => ToBackend(reply)
          case _ => Crash
        else
          match RootOf(env.forest, rootPath)
          case None => ToBackend(Error(0, ""))
          case Some(root) => IssueOnTree(env, req[KInfoType := String(env.infoType(root))], root, rootPath)
  }

  function IssueOnTree(env: Env, req: RequestMap, root: Node, rootPath: bytes): Outcome {
    hide IsFine, Conclude;
    match PlanOf(env, req, Some(root), rootPath)
    case Done(reply) => ToBackend(reply)
    case PlanFatal => Crash
    case Paths(ps) =>
      var i := FirstFailing(env, req, root, ps);
      if i < |ps| then
        match CheckPath(env, req, root, ps[i])
        case PathError(reply) => ToBackend(reply)
        case _ => Crash
      else Conclude(env, req, root, ps)
  }

  // ----- discovery -----

  function Discover(env: Env, req: RequestMap): Outcome {
    match StringAt(req, KPath)
    case None => ToBackend(Error(1, "missing/invalid path"))
    case Some(rootPath) =>
      match StringAt(req, KDepth)
      case None => ToBackend(Error(1, "missing/invalid depth"))
      case Some(depthText) =>
        match env.atoi(depthText)
        case None => ToBackend(Error(1, "invalid depth"))
        case Some(depth) =>
          if AsksForest(rootPath) then ToBackend(Discovered(env, req, env.himMetadata))
          else
            match RootOf(env.forest, rootPath)
            case None => ToBackend(Error(0, ""))
            case Some(root) =>
              if SubTreeOverruns(root, rootPath, env.noScopeList(req)) then Crash
              else ToBackend(Discovered(env, req, env.treeMetadata(root, rootPath, depth, req)))
  }

  /** Asked about the set of trees instead of a tree. */
  predicate AsksForest(path: bytes) {
    IsHim(path) || HasPrefix(path, Ascii("HIM."))
  }

  function Discovered(env: Env, req: RequestMap, text: bytes): Reply {
    if text == [] then Error(0, "")
    else
      match env.parseMetadata(text)
      case None => Error(0, "")
      case Some(metadata) => Answer((req - {KPath, KDepth})[KTimestamp := String(env.timestamp)][KMetadata := metadata])
  }

  // ----- all requests -----

  /** A string path is rewritten with dots before anything else. */
  function Dotted(req: RequestMap): RequestMap {
    match StringAt(req, KPath) case None => req case Some(p) => req[KPath := String(UrlToPath(p))]
  }

  function Serve(env: Env, req0: RequestMap): Outcome {
    var req := Dotted(req0);
    if IsText(req, KAction, "unsubscribe") then ToService(req)
    else if IsText(req, KAction, "discover") then Discover(env, req)
    else if IsMultiSignal(req) then ServeMulti(env, req, !IsText(req, KAction, "get"))
    else Issue(env, req)
  }
}
