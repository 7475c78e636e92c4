/**
 What makes a search incomplete, read off the tree node by node: a visited node whose subtree never
 reaches the end of the pattern, and a reported node at the same wildcard level in its subtree or
 before it. Together with `CompleteIff` this is the condition for a complete result, without counters.
 */
module SearchSpoilers {
  import opened ByteStrings
  import opened VssTree
  import opened PathSegments
  import opened TreeSearch
  import opened SearchInvariants
  import opened SearchCompleteness
  import opened SearchRetraction
  import opened SearchMeaning

  type Property = (Node, nat) -> bool

  /** The node at `at` is visited and has the property at its depth. */
  ghost predicate HasAt(q: Query, n: Node, depth: nat, path: bytes, p: Property, at: Address)
    requires depth >= 1
  {
    InTree(n, at) && Selected(Everything(q), n, depth, path, at) && p(NodeAt(n, at), depth + |at|)
  }

  ghost predicate Has(q: Query, n: Node, depth: nat, path: bytes, p: Property)
    requires depth >= 1
  {
    exists at :: HasAt(q, n, depth, path, p, at)
  }

  ghost predicate ChildHas(q: Query, ns: seq<Node>, depth: nat, parentPath: bytes, p: Property, i: nat)
    requires depth >= 1
  {
    i < |ns| && NameMatches(ns[i].name, Segment(q.path, depth)) && Has(q, ns[i], depth, parentPath + [DOT] + ns[i].name, p)
  }

  ghost predicate ChildrenHave(q: Query, ns: seq<Node>, depth: nat, parentPath: bytes, p: Property)
    requires depth >= 1
  {
    exists i: nat :: ChildHas(q, ns, depth, parentPath, p, i)
  }

  lemma {:induction false} HasBelow(q: Query, n: Node, depth: nat, path: bytes, p: Property, i: nat, at: Address)
    requires depth >= 1 && i < |n.children|
    ensures HasAt(q, n, depth, path, p, [i] + at)
       <==> && !Stops(q, n, depth, path) && NameMatches(n.children[i].name, Segment(q.path, depth + 1))
            && HasAt(q, n.children[i], depth + 1, path + [DOT] + n.children[i].name, p, at)
  {
    hide Segment;
    assert ([i] + at)[1..] == at;
  }

  lemma {:induction false} HasIff(q: Query, n: Node, depth: nat, path: bytes, p: Property)
    requires depth >= 1
    ensures Has(q, n, depth, path, p)
       <==> p(n, depth) || (!Stops(q, n, depth, path) && ChildrenHave(q, n.children, depth + 1, path, p))
  {
    hide Segment;
    if at: Address :| HasAt(q, n, depth, path, p, at) && at != [] {
      var i, below := at[0], at[1..];
      assert at == [i] + below;
      HasBelow(q, n, depth, path, p, i, below);
      assert ChildHas(q, n.children, depth + 1, path, p, i);
    }
    if p(n, depth) {
      assert HasAt(q, n, depth, path, p, []);
    }
    if !Stops(q, n, depth, path) && ChildrenHave(q, n.children, depth + 1, path, p) {
      var i: nat :| ChildHas(q, n.children, depth + 1, path, p, i);
      var child := n.children[i];
      var below: Address :| HasAt(q, child, depth + 1, path + [DOT] + child.name, p, below);
      HasBelow(q, n, depth, path, p, i, below);
      assert HasAt(q, n, depth, path, p, [i] + below);
    }
  }

  lemma {:induction false} ChildrenHaveIff(q: Query, ns: seq<Node>, depth: nat, parentPath: bytes, p: Property)
    requires depth >= 1
    ensures ChildrenHave(q, ns, depth, parentPath, p)
       <==> && ns != []
            && ((NameMatches(ns[0].name, Segment(q.path, depth)) && Has(q, ns[0], depth, parentPath + [DOT] + ns[0].name, p))
                || ChildrenHave(q, ns[1..], depth, parentPath, p))
  {
    hide Segment, Has;
    if i: nat :| ChildHas(q, ns, depth, parentPath, p, i) {
      if i > 0 {
        assert ns[1..][i - 1] == ns[i];
        assert ChildHas(q, ns[1..], depth, parentPath, p, i - 1);
      }
    }
    if ns != [] {
      if NameMatches(ns[0].name, Segment(q.path, depth)) && Has(q, ns[0], depth, parentPath + [DOT] + ns[0].name, p) {
        assert ChildHas(q, ns, depth, parentPath, p, 0);
      }
      if i: nat :| ChildHas(q, ns[1..], depth, parentPath, p, i) {
        assert ns[1..][i] == ns[i + 1];
        assert ChildHas(q, ns, depth, parentPath, p, i + 1);
      }
    }
  }

  // ----- scores and tallies -----

  /** The node ends a match of the pattern. */
  function Scores(q: Query): Property {
    (n: Node, depth: nat) => OwnScore(q, n, depth) > 0
  }

  /** The node is reported at this wildcard level. */
  function ReportsAt(q: Query, slot: int): Property {
    (n: Node, depth: nat) => Reported(q, n) && SlotAt(q, depth) == slot
  }

  lemma {:induction false} ScoreIff(q: Query, n: Node, depth: nat, path: bytes)
    requires depth >= 1
    ensures Score(q, n, depth, path) > 0 <==> Has(q, n, depth, path, Scores(q))
    decreases n, 0
  {
    hide Segment, ScoreChildren, OwnScore, Has, ChildrenHave;
    HasIff(q, n, depth, path, Scores(q));
    ScoreChildrenIff(q, n.children, depth + 1, path);
  }

  lemma {:induction false} ScoreChildrenIff(q: Query, ns: seq<Node>, depth: nat, parentPath: bytes)
    requires depth >= 1
    ensures ScoreChildren(q, ns, depth, parentPath) > 0 <==> ChildrenHave(q, ns, depth, parentPath, Scores(q))
    decreases ns, 1
  {
    hide Segment, Score, Has, ChildrenHave, Scores;
    ChildrenHaveIff(q, ns, depth, parentPath, Scores(q));
    if ns != [] {
      ScoreIff(q, ns[0], depth, parentPath + [DOT] + ns[0].name);
      ScoreChildrenIff(q, ns[1..], depth, parentPath);
    }
  }

  ghost predicate NonNegative(t: seq<int>) {
    forall i :: 0 <= i < |t| ==> t[i] >= 0
  }

  lemma {:induction false} OwnTallyIff(q: Query, n: Node, depth: nat, t: seq<int>, slot: nat)
    requires NonNegative(t) && slot < |t|
    ensures var t1 := OwnTally(q, n, depth, t);
            && |t1| == |t| && NonNegative(t1)
            && (t1[slot] > 0 <==> t[slot] > 0 || ReportsAt(q, slot)(n, depth))
  {
    hide Stars;
  }

  lemma {:induction false} TallyIff(q: Query, n: Node, depth: nat, path: bytes, t: seq<int>, slot: nat)
    requires depth >= 1 && NonNegative(t) && slot < |t|
    ensures var after := Tally(q, n, depth, path, t);
            && |after| == |t| && NonNegative(after)
            && (after[slot] > 0 <==> t[slot] > 0 || Has(q, n, depth, path, ReportsAt(q, slot)))
    decreases n, 0
  {
    hide Segment, TallyChildren, OwnTally, Has, ChildrenHave, ReportsAt;
    OwnTallyIff(q, n, depth, t, slot);
    HasIff(q, n, depth, path, ReportsAt(q, slot));
    TallyChildrenIff(q, n.children, depth + 1, path, OwnTally(q, n, depth, t), slot);
  }

  lemma {:induction false} TallyChildrenIff(q: Query, ns: seq<Node>, depth: nat, parentPath: bytes, t: seq<int>, slot: nat)
    requires depth >= 1 && NonNegative(t) && slot < |t|
    ensures var after := TallyChildren(q, ns, depth, parentPath, t);
            && |after| == |t| && NonNegative(after)
            && (after[slot] > 0 <==> t[slot] > 0 || ChildrenHave(q, ns, depth, parentPath, ReportsAt(q, slot)))
    decreases ns, 1
  {
    hide Segment, Tally, Has, ChildrenHave, ReportsAt, NonNegative;
    ChildrenHaveIff(q, ns, depth, parentPath, ReportsAt(q, slot));
    if ns != [] {
      var path := parentPath + [DOT] + ns[0].name;
      TallyIff(q, ns[0], depth, path, t, slot);
      var t1 := if NameMatches(ns[0].name, Segment(q.path, depth)) then Tally(q, ns[0], depth, path, t) else t;
      TallyChildrenIff(q, ns[1..], depth, parentPath, t1, slot);
    }
  }

  // ----- spoilers -----

  /** Visited no later than the node at `at` is left: in its subtree, on the way to it, or before it. */
  predicate InOrBefore(b: Address, at: Address)
    decreases |b|
  {
    b == [] || at == [] || b[0] < at[0] || (b[0] == at[0] && InOrBefore(b[1..], at[1..]))
  }

  ghost predicate Earlier(q: Query, n: Node, depth: nat, path: bytes, slot: int, at: Address, b: Address)
    requires depth >= 1
  {
    HasAt(q, n, depth, path, ReportsAt(q, slot), b) && InOrBefore(b, at)
  }

  ghost predicate SomeEarlier(q: Query, n: Node, depth: nat, path: bytes, slot: int, at: Address)
    requires depth >= 1
  {
    exists b :: Earlier(q, n, depth, path, slot, at, b)
  }

  /** Leaving the node at `at` takes a match back; `t` counts the matches before the subtree. */
  ghost predicate Spoils(q: Query, n: Node, depth: nat, path: bytes, t: seq<int>, at: Address)
    requires depth >= 1
  {
    var slot := SlotAt(q, depth + |at|);
    && InTree(n, at) && Selected(Everything(q), n, depth, path, at) && 0 <= slot < |t|
    && !Has(q, NodeAt(n, at), depth + |at|, PathAt(n, at, path), Scores(q))
    && (t[slot] > 0 || SomeEarlier(q, n, depth, path, slot, at))
  }

  /** The counts before child `i`. */
  function Before(q: Query, ns: seq<Node>, depth: nat, parentPath: bytes, t: seq<int>, i: nat): seq<int>
    requires depth >= 1 && i <= |ns|
  {
    TallyChildren(q, ns[..i], depth, parentPath, t)
  }

  lemma {:induction false} FindSpoiler(q: Query, n: Node, depth: nat, path: bytes, t: seq<int>) returns (at: Address)
    requires depth >= 1 && NonNegative(t) && !Clean(q, n, depth, path, t)
    ensures Spoils(q, n, depth, path, t, at)
    decreases n, 0
  {
    hide Segment, CleanChildren, Tally, Has, Score, OwnTally, Before;
    if !Settles(q, n, depth, path, t) {
      at := [];
      var slot := SlotAt(q, depth);
      assert 0 <= slot < |t| by { TallyLength(q, n, depth, path, t); }
      TallyIff(q, n, depth, path, t, slot);
      ScoreIff(q, n, depth, path);
      if t[slot] <= 0 {
        var b := Witness(q, n, depth, path, ReportsAt(q, slot));
        assert Earlier(q, n, depth, path, slot, [], b);
      }
    } else {
      var t1 := OwnTally(q, n, depth, t);
      OwnTallyShape(q, n, depth, t);
      var i, below := FindSpoilerBelow(q, n.children, depth + 1, path, t1);
      at := [i] + below;
      Lift(q, n, depth, path, t, i, below);
    }
  }

  lemma {:induction false} Witness(q: Query, n: Node, depth: nat, path: bytes, p: Property) returns (at: Address)
    requires depth >= 1 && Has(q, n, depth, path, p)
    ensures HasAt(q, n, depth, path, p, at)
  {
    at :| HasAt(q, n, depth, path, p, at);
  }

  lemma {:induction false} TallyLength(q: Query, n: Node, depth: nat, path: bytes, t: seq<int>)
    requires depth >= 1 && NonNegative(t)
    ensures |Tally(q, n, depth, path, t)| == |t|
  {
    hide Tally, Has;
    if t == [] {
      EmptyTally(q, n, depth, path);
    } else {
      TallyIff(q, n, depth, path, t, 0);
    }
  }

  lemma {:induction false} EmptyTally(q: Query, n: Node, depth: nat, path: bytes)
    requires depth >= 1
    ensures Tally(q, n, depth, path, []) == []
    decreases n, 0
  {
    hide Segment;
    EmptyTallyChildren(q, n.children, depth + 1, path);
  }

  lemma {:induction false} EmptyTallyChildren(q: Query, ns: seq<Node>, depth: nat, parentPath: bytes)
    requires depth >= 1
    ensures TallyChildren(q, ns, depth, parentPath, []) == []
    decreases ns, 1
  {
    hide Segment, Tally;
    if ns != [] {
      EmptyTally(q, ns[0], depth, parentPath + [DOT] + ns[0].name);
      EmptyTallyChildren(q, ns[1..], depth, parentPath);
    }
  }

  lemma {:induction false} OwnTallyShape(q: Query, n: Node, depth: nat, t: seq<int>)
    requires NonNegative(t)
    ensures |OwnTally(q, n, depth, t)| == |t| && NonNegative(OwnTally(q, n, depth, t))
  {
    hide Stars;
  }

  lemma {:induction false} FindSpoilerBelow(q: Query, ns: seq<Node>, depth: nat, parentPath: bytes, t: seq<int>)
    returns (i: nat, below: Address)
    requires depth >= 1 && NonNegative(t) && !CleanChildren(q, ns, depth, parentPath, t)
    ensures i < |ns| && NameMatches(ns[i].name, Segment(q.path, depth))
    ensures Spoils(q, ns[i], depth, parentPath + [DOT] + ns[i].name, Before(q, ns, depth, parentPath, t, i), below)
    decreases ns, 1
  {
    hide Segment, Clean, Spoils, Tally;
    var path := parentPath + [DOT] + ns[0].name;
    var matches := NameMatches(ns[0].name, Segment(q.path, depth));
    if matches && !Clean(q, ns[0], depth, path, t) {
      i := 0;
      below := FindSpoiler(q, ns[0], depth, path, t);
      assert ns[..0] == [];
    } else {
      var t1 := if matches then Tally(q, ns[0], depth, path, t) else t;
      assert NonNegative(t1) by { TallyShape(q, ns[0], depth, path, t); }
      i, below := FindSpoilerBelow(q, ns[1..], depth, parentPath, t1);
      BeforeNext(q, ns, depth, parentPath, t, i);
      i := i + 1;
    }
  }

  lemma {:induction false} TallyShape(q: Query, n: Node, depth: nat, path: bytes, t: seq<int>)
    requires depth >= 1 && NonNegative(t)
    ensures NonNegative(Tally(q, n, depth, path, t))
  {
    hide Tally, Has;
    TallyLength(q, n, depth, path, t);
    if t != [] {
      TallyIff(q, n, depth, path, t, 0);
    }
  }

  lemma {:induction false} BeforeNext(q: Query, ns: seq<Node>, depth: nat, parentPath: bytes, t: seq<int>, i: nat)
    requires depth >= 1 && ns != [] && i < |ns|
    ensures var t1 := if NameMatches(ns[0].name, Segment(q.path, depth))
                      then Tally(q, ns[0], depth, parentPath + [DOT] + ns[0].name, t) else t;
            Before(q, ns, depth, parentPath, t, i + 1) == Before(q, ns[1..], depth, parentPath, t1, i)
  {
    hide Segment, Tally;
    assert ns[..i + 1][1..] == ns[1..][..i] && ns[..i + 1][0] == ns[0];
  }

  /** A spoiler in a child is one of the node, and the other way round. */
  lemma {:induction false} Lift(q: Query, n: Node, depth: nat, path: bytes, t: seq<int>, i: nat, below: Address)
    requires depth >= 1 && NonNegative(t) && i < |n.children|
    ensures Spoils(q, n, depth, path, t, [i] + below)
       <==> && !Stops(q, n, depth, path) && NameMatches(n.children[i].name, Segment(q.path, depth + 1))
            && Spoils(q, n.children[i], depth + 1, path + [DOT] + n.children[i].name,
                      Before(q, n.children, depth + 1, path, OwnTally(q, n, depth, t), i), below)
  {
    hide Segment, Has, Stars, OwnTally, Scores, ReportsAt, NonNegative, TallyChildren;
    var at := [i] + below;
    var child := n.children[i];
    var childPath := path + [DOT] + child.name;
    var t1 := OwnTally(q, n, depth, t);
    var ti := Before(q, n.children, depth + 1, path, t1, i);
    var slot := SlotAt(q, depth + |at|);
    assert at[1..] == below && depth + 1 + |below| == depth + |at|;
    OwnTallyShape(q, n, depth, t);
    assert |ti| == |t| by {
      if t != [] { TallyChildrenIff(q, n.children[..i], depth + 1, path, t1, 0); }
      else { assert t1 == []; EmptyTallyChildren(q, n.children[..i], depth + 1, path); }
    }
    if InTree(child, below) && 0 <= slot < |t| && !Stops(q, n, depth, path) && NameMatches(child.name, Segment(q.path, depth + 1)) {
      SameSeen(q, n, depth, path, t, i, below, slot);
    }
  }

  ghost predicate Seen(q: Query, n: Node, depth: nat, path: bytes, t: seq<int>, slot: nat, at: Address)
    requires depth >= 1 && slot < |t|
  {
    t[slot] > 0 || SomeEarlier(q, n, depth, path, slot, at)
  }

  lemma {:induction false} SameSeen(q: Query, n: Node, depth: nat, path: bytes, t: seq<int>, i: nat, below: Address, slot: nat)
    requires depth >= 1 && NonNegative(t) && i < |n.children| && slot < |t|
    requires !Stops(q, n, depth, path) && NameMatches(n.children[i].name, Segment(q.path, depth + 1))
    ensures var child := n.children[i];
            var ti := Before(q, n.children, depth + 1, path, OwnTally(q, n, depth, t), i);
            |ti| == |t| && (Seen(q, n, depth, path, t, slot, [i] + below)
                            <==> Seen(q, child, depth + 1, path + [DOT] + child.name, ti, slot, below))
  {
    hide Segment, Has, Stars, OwnTally, ReportsAt, NonNegative, TallyChildren, HasAt;
    var p := ReportsAt(q, slot);
    var at := [i] + below;
    var child := n.children[i];
    var childPath := path + [DOT] + child.name;
    var t1 := OwnTally(q, n, depth, t);
    var ti := Before(q, n.children, depth + 1, path, t1, i);
    assert at[1..] == below;
    OwnTallyIff(q, n, depth, t, slot);
    TallyChildrenIff(q, n.children[..i], depth + 1, path, t1, slot);
    if b: Address :| Earlier(q, n, depth, path, slot, at, b) {
      SeenBelow(q, n, depth, path, t, i, below, slot, b);
    }
    if ti[slot] > 0 && t[slot] <= 0 {
      if p(n, depth) {
        SeenHere(q, n, depth, path, p);
        assert Earlier(q, n, depth, path, slot, at, []);
      } else {
        var j: nat :| ChildHas(q, n.children[..i], depth + 1, path, p, j);
        var other := n.children[j];
        var c := Witness(q, other, depth + 1, path + [DOT] + other.name, p);
        HasBelow(q, n, depth, path, p, j, c);
        assert ([j] + c)[0] == j;
        assert Earlier(q, n, depth, path, slot, at, [j] + c);
      }
    }
    var below1 := depth + 1;
    if c: Address :| Earlier(q, child, below1, childPath, slot, below, c) {
      HasBelow(q, n, depth, path, p, i, c);
      assert ([i] + c)[1..] == c;
      assert Earlier(q, n, depth, path, slot, at, [i] + c);
    }
  }

  lemma {:induction false} SeenHere(q: Query, n: Node, depth: nat, path: bytes, p: Property)
    requires depth >= 1 && p(n, depth)
    ensures HasAt(q, n, depth, path, p, [])
  {
  }

  lemma {:induction false} SeenBelow(q: Query, n: Node, depth: nat, path: bytes, t: seq<int>, i: nat, below: Address, slot: nat, b: Address)
    requires depth >= 1 && NonNegative(t) && i < |n.children| && slot < |t|
    requires !Stops(q, n, depth, path) && NameMatches(n.children[i].name, Segment(q.path, depth + 1))
    requires Earlier(q, n, depth, path, slot, [i] + below, b)
    ensures var child := n.children[i];
            var ti := Before(q, n.children, depth + 1, path, OwnTally(q, n, depth, t), i);
            |ti| == |t| && Seen(q, child, depth + 1, path + [DOT] + child.name, ti, slot, below)
  {
    hide Segment, Stars, OwnTally, NonNegative, TallyChildren;
    var p := ReportsAt(q, slot);
    var child := n.children[i];
    var t1 := OwnTally(q, n, depth, t);
    OwnTallyIff(q, n, depth, t, slot);
    TallyChildrenIff(q, n.children[..i], depth + 1, path, t1, slot);
    if b != [] {
      var j, c := b[0], b[1..];
      assert b == [j] + c && ([i] + below)[1..] == below;
      HasBelow(q, n, depth, path, p, j, c);
      if j < i {
        assert n.children[..i][j] == n.children[j];
        assert ChildHas(q, n.children[..i], depth + 1, path, p, j);
      } else {
        assert Earlier(q, child, depth + 1, path + [DOT] + child.name, slot, below, c);
      }
    }
  }

  lemma {:induction false} SpoilerUnclean(q: Query, n: Node, depth: nat, path: bytes, t: seq<int>, at: Address)
    requires depth >= 1 && NonNegative(t) && Spoils(q, n, depth, path, t, at)
    ensures !Clean(q, n, depth, path, t)
    decreases |at|
  {
    hide Segment, CleanChildren, Tally, Has, Score, OwnTally, Before;
    if at == [] {
      var slot := SlotAt(q, depth);
      TallyIff(q, n, depth, path, t, slot);
      ScoreIff(q, n, depth, path);
      if b: Address :| Earlier(q, n, depth, path, slot, [], b) {
        assert Has(q, n, depth, path, ReportsAt(q, slot)) by { WitnessGiven(q, n, depth, path, ReportsAt(q, slot), b); }
      }
    } else {
      var i, below := at[0], at[1..];
      assert at == [i] + below;
      var child := n.children[i];
      var t1 := OwnTally(q, n, depth, t);
      OwnTallyShape(q, n, depth, t);
      Lift(q, n, depth, path, t, i, below);
      var ti := Before(q, n.children, depth + 1, path, t1, i);
      assert NonNegative(ti) by { BeforeShape(q, n.children, depth + 1, path, t1, i); }
      SpoilerUnclean(q, child, depth + 1, path + [DOT] + child.name, ti, below);
      ChildUnclean(q, n.children, depth + 1, path, t1, i);
    }
  }

  lemma {:induction false} WitnessGiven(q: Query, n: Node, depth: nat, path: bytes, p: Property, at: Address)
    requires depth >= 1 && HasAt(q, n, depth, path, p, at)
    ensures Has(q, n, depth, path, p)
  {
  }

  lemma {:induction false} BeforeShape(q: Query, ns: seq<Node>, depth: nat, parentPath: bytes, t: seq<int>, i: nat)
    requires depth >= 1 && i <= |ns| && NonNegative(t)
    ensures NonNegative(Before(q, ns, depth, parentPath, t, i))
  {
    hide TallyChildren, ChildrenHave;
    if t == [] {
      EmptyTallyChildren(q, ns[..i], depth, parentPath);
    } else {
      TallyChildrenIff(q, ns[..i], depth, parentPath, t, 0);
    }
  }

  lemma {:induction false} ChildUnclean(q: Query, ns: seq<Node>, depth: nat, parentPath: bytes, t: seq<int>, i: nat)
    requires depth >= 1 && i < |ns| && NameMatches(ns[i].name, Segment(q.path, depth))
    requires !Clean(q, ns[i], depth, parentPath + [DOT] + ns[i].name, Before(q, ns, depth, parentPath, t, i))
    ensures !CleanChildren(q, ns, depth, parentPath, t)
    decreases |ns|
  {
    hide Segment, Clean, Tally;
    if i == 0 {
      assert ns[..0] == [];
    } else {
      BeforeNext(q, ns, depth, parentPath, t, i - 1);
      var t1 := if NameMatches(ns[0].name, Segment(q.path, depth)) then Tally(q, ns[0], depth, parentPath + [DOT] + ns[0].name, t) else t;
      ChildUnclean(q, ns[1..], depth, parentPath, t1, i - 1);
    }
  }

  /**
   The node at `at` spoils the search: its subtree never reaches the end of the pattern, and a node
   at its wildcard level is reported in its subtree, on the way to it or before it.
   */
  ghost predicate Spoiler(q: Query, root: Node, at: Address) {
    && InTree(root, at) && Selected(Everything(q), root, 1, root.name, at)
    && SlotAt(q, 1 + |at|) >= 0
    && !Has(q, NodeAt(root, at), 1 + |at|, PathAt(root, at, root.name), Scores(q))
    && SomeEarlier(q, root, 1, root.name, SlotAt(q, 1 + |at|), at)
  }

  /** For every pattern below the cap, a search that does not overrun is complete unless a node spoils it. */
  lemma {:induction false} CompleteUnlessSpoiled(q: Query, root: Node)
    requires DotFree(root) && |Expected(q, root)| < MAX_MATCHES && !Search(q, root).fault
    ensures Search(q, root).matches == Expected(q, root) <==> forall at :: !Spoiler(q, root, at)
  {
    hide Search, Expected, Clean, Has, Stars, SomeEarlier, Selected;
    var t := StartCtx().speculativeMatches;
    CompleteIff(q, root);
    SearchFaultExact(q, root);
    if !Clean(q, root, 1, root.name, t) {
      var at := FindSpoiler(q, root, 1, root.name, t);
      assert Spoiler(q, root, at);
    }
    if at: Address :| Spoiler(q, root, at) {
      NotTooDeep(q, root, at);
      assert Spoils(q, root, 1, root.name, t, at);
      SpoilerUnclean(q, root, 1, root.name, t, at);
    }
  }

  lemma {:induction false} NotTooDeep(q: Query, root: Node, at: Address)
    requires !Deep(q, root, 1, root.name) && InTree(root, at) && Selected(Everything(q), root, 1, root.name, at)
    ensures Stars(q, 1 + |at|) <= SPECULATION_SLOTS
  {
    hide Deep, Selected, Stars;
    if Stars(q, 1 + |at|) > SPECULATION_SLOTS {
      DeepAt(q, root, 1, root.name, at);
    }
  }
}
