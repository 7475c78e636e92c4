/**
 The search as it runs: one context object, updated in place through the traversal. Where the program
 would stop with an index error, `panicked` is set and nothing more is done.
 */
module SearchContext {
  import opened ByteStrings
  import opened VssTree
  import opened PathSegments
  import opened AccessRights
  import opened TreeSearch
  import opened SearchInvariants
  import opened SearchCompleteness
  import opened SearchRetraction

  class Context {
    const query: Query
    var currentDepth: int
    var matchPath: bytes
    var speculationIndex: int
    const speculativeMatches: array<int>
    var maxValidation: Level
    var numOfMatches: int
    const searchData: array<Match>
    var panicked: bool

    ghost predicate Valid()
      reads this, speculativeMatches, searchData
    {
      && query.path != [] && speculativeMatches.Length == SPECULATION_SLOTS
      && (!panicked ==> currentDepth >= 0 && 0 <= numOfMatches <= searchData.Length && CountsOk(View()))
    }

    /** Either the buffer is too small, or the state that was to be reached has missed a slot. */
    ghost predicate PanickedFor(c: Ctx)
      reads this
    {
      panicked && (c.fault || searchData.Length < MAX_MATCHES)
    }

    /** The state as a value; as long as nothing panicked no slot is missed. */
    ghost function View(): Ctx
      requires 0 <= numOfMatches <= searchData.Length
      reads this, speculativeMatches, searchData
    {
      Ctx(currentDepth, matchPath, speculationIndex, speculativeMatches[..], maxValidation, searchData[..numOfMatches], false)
    }

    constructor (query: Query, maxFound: nat)
      requires query.path != []
      ensures this.query == query && !panicked && Valid() && View() == StartCtx()
      ensures fresh(speculativeMatches) && fresh(searchData) && searchData.Length == maxFound
    {
      this.query, panicked := query, false;
      currentDepth, matchPath, speculationIndex, maxValidation, numOfMatches := 0, [], -1, 0, 0;
      speculativeMatches := new int[SPECULATION_SLOTS](_ => 0);
      searchData := new Match[maxFound](_ => Match([], PlaceHolder()));
      new;
      assert speculativeMatches[..] == StartCtx().speculativeMatches;
      SumOfZeros(speculativeMatches[..]);
    }

    method IncDepth(n: Node)
      requires Valid() && !panicked
      modifies this`currentDepth, this`matchPath
      ensures Valid() && View() == TreeSearch.IncDepth(old(View()), n)
    {
      if currentDepth > 0 {
        matchPath := matchPath + [DOT];
      }
      matchPath := matchPath + n.name;
      currentDepth := currentDepth + 1;
    }

    method IsEndOfScope() returns (r: bool)
      ensures r <==> matchPath in query.noScopeList
    {
      var i := 0;
      while i < |query.noScopeList|
        invariant 0 <= i <= |query.noScopeList|
        invariant matchPath !in query.noScopeList[..i]
      {
        if matchPath == query.noScopeList[i] {
          return true;
        }
        i := i + 1;
      }
      return false;
    }

    method SaveMatchingNode(n: Node) returns (done: bool, score: nat)
      requires Valid() && !panicked && currentDepth >= 1
      modifies this, speculativeMatches, searchData
      ensures Valid()
      ensures panicked ==> PanickedFor(TreeSearch.SaveMatchingNode(query, old(View()), n))
      ensures !panicked ==>
                && View() == TreeSearch.SaveMatchingNode(query, old(View()), n)
                && done == Done(query, old(View()), n)
                && score == SaveScore(query, old(View()), View(), n)
    {
      hide Segment, SearchMax, CountsOk;
      ghost var before := View();
      SaveKeepsCounts(query, before, n);
      assert numOfMatches <= MAX_MATCHES by { CountsBound(before); }
      if numOfMatches == MAX_MATCHES {
        return true, 0;
      }
      var segment := GetPathSegment(query.path, currentDepth);
      if segment == WILDCARD {
        speculationIndex := speculationIndex + 1;
      }
      maxValidation := SearchMax(n.validate, maxValidation);
      done, score := true, 0;
      if n.nodeType != BRANCH || !query.leafNodesOnly {
        if numOfMatches >= searchData.Length || speculationIndex >= SPECULATION_SLOTS {
          panicked := true;
          return;
        }
        searchData[numOfMatches] := Match(matchPath, n);
        numOfMatches := numOfMatches + 1;
        assert searchData[..numOfMatches] == before.matches + [Match(matchPath, n)];
        if speculationIndex >= 0 {
          ghost var slots := speculativeMatches[..];
          speculativeMatches[speculationIndex] := speculativeMatches[speculationIndex] + 1;
          assert speculativeMatches[..] == slots[speculationIndex := slots[speculationIndex] + 1];
        }
      }
      var endOfScope := IsEndOfScope();
      done := |n.children| == 0 || currentDepth == query.maxDepth || endOfScope;
      score := if speculationIndex >= 0
                  && ((|n.children| == 0 && currentDepth >= DotCount(query.path) + 1) || currentDepth == query.maxDepth)
               then 1 else 0;
    }

    method DecDepth(succeeded: nat)
      requires Valid() && !panicked && currentDepth >= 1
      modifies this, speculativeMatches
      ensures Valid()
      ensures panicked ==> PanickedFor(TreeSearch.DecDepth(query, old(View()), succeeded))
      ensures !panicked ==> View() == TreeSearch.DecDepth(query, old(View()), succeeded)
    {
      hide Segment, CountsOk;
      ghost var before := View();
      DecKeepsCounts(query, before, succeeded);
      if speculationIndex >= SPECULATION_SLOTS {
        panicked := true;
        return;
      }
      if speculationIndex >= 0 && speculativeMatches[speculationIndex] > 0 {
        if succeeded == 0 {
          numOfMatches := numOfMatches - 1;
          assert searchData[..numOfMatches] == before.matches[..|before.matches| - 1];
          ghost var slots := speculativeMatches[..];
          speculativeMatches[speculationIndex] := speculativeMatches[speculationIndex] - 1;
          assert speculativeMatches[..] == slots[speculationIndex := slots[speculationIndex] - 1];
        }
      }
      var segment := GetPathSegment(query.path, currentDepth);
      if segment == WILDCARD {
        speculationIndex := speculationIndex - 1;
      }
      matchPath := PopSegment(matchPath);
      currentDepth := currentDepth - 1;
    }

    method TraverseNode(n: Node) returns (succeeded: nat)
      requires Valid() && !panicked
      modifies this, speculativeMatches, searchData
      ensures Valid()
      ensures panicked ==> PanickedFor(TreeSearch.TraverseNode(query, old(View()), n).0)
      ensures !panicked ==> (View(), succeeded) == TreeSearch.TraverseNode(query, old(View()), n)
      decreases n
    {
      hide Segment, PopSegment, PushSegment, CountsOk, TreeSearch.SaveMatchingNode, TreeSearch.DecDepth, SaveScore, TraverseChildren, Slot, AddToSlot;
      ghost var c := View();
      succeeded := 0;
      IncDepth(n);
      ghost var c1 := View();
      var segment := GetPathSegment(query.path, currentDepth);
      if currentDepth == 1 || n.name == segment || segment == WILDCARD {
        SaveFrame(query, c1, n);
        ghost var c2 := TreeSearch.SaveMatchingNode(query, c1, n);
        var done, score := SaveMatchingNode(n);
        if panicked {
          SavePanics(query, c, n);
          return;
        }
        succeeded := score;
        if !done {
          succeeded := TraverseKids(n, score);
          if panicked {
            KidsPanic(query, c, n);
            return;
          }
        }
      }
      DecDepth(succeeded);
    }

    /** The loop over the children of `n`; `score` counts what `n` itself scored. */
    method TraverseKids(n: Node, score: nat) returns (succeeded: nat)
      requires Valid() && !panicked && currentDepth >= 1
      modifies this, speculativeMatches, searchData
      ensures Valid()
      ensures var r := TraverseChildren(query, old(View()), n.children, Segment(query.path, old(currentDepth) + 1));
              if panicked then PanickedFor(r.0) else View() == r.0 && succeeded == score + r.1
      decreases n, 0
    {
      hide Segment, CountsOk, TreeSearch.TraverseNode;
      ghost var c2 := View();
      var kids := n.children;
      succeeded := score;
      var childPathName := GetPathSegment(query.path, currentDepth + 1);
      var i := 0;
      assert kids[0..] == kids;
      while i < |kids|
        invariant 0 <= i <= |kids| && Valid() && !panicked && currentDepth == c2.depth
        invariant TraverseChildren(query, c2, kids, childPathName).0
               == TraverseChildren(query, View(), kids[i..], childPathName).0
        invariant score + TraverseChildren(query, c2, kids, childPathName).1
               == succeeded + TraverseChildren(query, View(), kids[i..], childPathName).1
      {
        assert kids[i..][1..] == kids[i + 1..];
        if kids[i].name == childPathName || childPathName == WILDCARD {
          ghost var r1 := TreeSearch.TraverseNode(query, View(), kids[i]).0;
          var s := TraverseNode(kids[i]);
          if panicked {
            if r1.fault {
              ChildrenFaultSticky(query, r1, kids[i + 1..], childPathName);
            }
            return;
          }
          succeeded := succeeded + s;
        }
        i := i + 1;
      }
    }
  }

  function PlaceHolder(): Node {
    Node([], [], [], [], [], [], [], [], [], [], 0, [])
  }

  lemma CountsBound(c: Ctx)
    requires CountsOk(c)
    ensures |c.matches| <= MAX_MATCHES
  {
  }

  /** An overrun while a node is saved is an overrun of its traversal. */
  lemma {:induction false} SavePanics(q: Query, c: Ctx, n: Node)
    requires c.depth >= 0
    requires var c1 := TreeSearch.IncDepth(c, n); c1.depth == 1 || NameMatches(n.name, Segment(q.path, c1.depth))
    ensures TreeSearch.SaveMatchingNode(q, TreeSearch.IncDepth(c, n), n).fault ==> TreeSearch.TraverseNode(q, c, n).0.fault
  {
    hide Segment, PushSegment, PopSegment, TreeSearch.SaveMatchingNode, TreeSearch.DecDepth, TraverseChildren;
    var c1 := TreeSearch.IncDepth(c, n);
    var c2 := TreeSearch.SaveMatchingNode(q, c1, n);
    SaveFrame(q, c1, n);
    if c2.fault {
      ChildrenFaultSticky(q, c2, n.children, Segment(q.path, c2.depth + 1));
      var r := TraverseChildren(q, c2, n.children, Segment(q.path, c2.depth + 1));
      var score := SaveScore(q, c1, c2, n);
      DecFrame(q, c2, score);
      DecFrame(q, r.0, score + r.1);
    }
  }

  /** So is one among its children. */
  lemma {:induction false} KidsPanic(q: Query, c: Ctx, n: Node)
    requires c.depth >= 0
    requires var c1 := TreeSearch.IncDepth(c, n);
             (c1.depth == 1 || NameMatches(n.name, Segment(q.path, c1.depth))) && !Done(q, c1, n)
    ensures var c2 := TreeSearch.SaveMatchingNode(q, TreeSearch.IncDepth(c, n), n);
            && c2.depth == c.depth + 1
            && (TraverseChildren(q, c2, n.children, Segment(q.path, c2.depth + 1)).0.fault
                ==> TreeSearch.TraverseNode(q, c, n).0.fault)
  {
    hide Segment, PushSegment, PopSegment, TreeSearch.SaveMatchingNode, TreeSearch.DecDepth, TraverseChildren;
    var c1 := TreeSearch.IncDepth(c, n);
    var c2 := TreeSearch.SaveMatchingNode(q, c1, n);
    SaveFrame(q, c1, n);
    var r := TraverseChildren(q, c2, n.children, Segment(q.path, c2.depth + 1));
    DecFrame(q, r.0, SaveScore(q, c1, c2, n) + r.1);
  }

  /** The query `VSSsearchNodes` makes of its arguments. */
  function MakeQuery(searchPath: bytes, anyDepth: bool, leafNodesOnly: bool, noScopeList: seq<bytes>): Query {
    Query(searchPath, if anyDepth then 100 else DotCount(searchPath) + 1, leafNodesOnly, noScopeList)
  }

  /** What a search that did not stop with an index error has found. */
  ghost predicate FoundBy(q: Query, root: Node, matches: seq<Match>, validation: Level) {
    && Subsequence(matches, Expected(q, root))
    && (NoStar(q) ==> matches == Take(Expected(q, root), MAX_MATCHES))
    && (|Expected(q, root)| < MAX_MATCHES ==>
          && (matches == Expected(q, root) <==> Clean(q, root, 1, root.name, StartCtx().speculativeMatches))
          && (OnlyLastStar(q) && q.noScopeList == [] ==> matches == Expected(q, root))
          && validation == JoinAll(Requirements(Expected(Everything(q), root)), 0))
  }

  lemma {:induction false} SearchFinds(q: Query, root: Node)
    requires DotFree(root) && !Search(q, root).fault
    ensures FoundBy(q, root, Search(q, root).matches, Search(q, root).maxValidation)
  {
    hide Search, Expected, NoStar, OnlyLastStar, Clean, Subsequence;
    SearchSound(q, root);
    SearchExact(q, root);
    if |Expected(q, root)| < MAX_MATCHES {
      CompleteIff(q, root);
    }
  }

  /**
   Searches a tree. It panics exactly if a slot is missed, given a buffer as large as the cap; a
   smaller buffer may make it panic earlier. Otherwise, whatever the pattern, the validation covers
   the matches, and in a tree of dot-free names the matches are expected ones, in order, and complete
   as `FoundBy` says.
   */
  method VssSearchNodes(searchPath: bytes, root: Node, maxFound: nat, anyDepth: bool, leafNodesOnly: bool, noScopeList: seq<bytes>)
    returns (panicked: bool, matches: seq<Match>, validation: Level)
    requires searchPath != []
    ensures var q := MakeQuery(searchPath, anyDepth, leafNodesOnly, noScopeList);
            && (maxFound >= MAX_MATCHES ==> (panicked <==> Search(q, root).fault))
            && (!panicked ==>
                  && !Search(q, root).fault
                  && matches == Search(q, root).matches && validation == Search(q, root).maxValidation
                  && |matches| <= MAX_MATCHES
                  && (forall m :: m in matches ==> Below(LevelOf(m.node.validate), validation))
                  && (DotFree(root) ==> FoundBy(q, root, matches, validation)))
  {
    hide TreeSearch.TraverseNode, Below, LevelOf, FoundBy;
    var q := MakeQuery(searchPath, anyDepth, leafNodesOnly, noScopeList);
    var context := new Context(q, maxFound);
    var _ := context.TraverseNode(root);
    if context.panicked {
      return true, [], 0;
    }
    SearchCovers(q, root);
    if DotFree(root) {
      SearchFinds(q, root);
    }
    return false, context.searchData[..context.numOfMatches], context.maxValidation;
  }
}
