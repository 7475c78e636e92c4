/**
 Access requirements of nodes: 0 none, 1 write-only, 2 read-write, and 10 more when consent is
 needed. They are combined with a matrix over the five levels 0, 1, 2, 11 and 12.
 */
module AccessRights {

  predicate IsLevel(v: int) { v == 0 || v == 1 || v == 2 || v == 11 || v == 12 }

  type Level = v: int | IsLevel(v) witness 0

  const VALIDATION_MATRIX: seq<seq<int>> := [
    [0, 1, 2, 11, 12],
    [1, 1, 2, 11, 12],
    [2, 2, 2, 12, 12],
    [11, 11, 12, 11, 12],
    [12, 12, 12, 12, 12]]

  /** Anything that is not a level, such as 10 (consent only), counts as level 0. */
  function MatrixIndex(v: int): (i: nat)
    ensures i < 5
  {
    if v == 1 then 1 else if v == 2 then 2 else if v == 11 then 3 else if v == 12 then 4 else 0
  }

  /** The combination used while a tree is searched. */
  function SearchMax(newValidation: int, current: int): (r: Level) {
    VALIDATION_MATRIX[MatrixIndex(newValidation)][MatrixIndex(current)]
  }

  /** The combination used over the paths of a request; plain maximum outside the levels. */
  function GetMaxValidation(newValidation: int, current: int): (r: int) {
    var ni := MatrixIndex(newValidation);
    var ci := MatrixIndex(current);
    if (ni == 0 && newValidation != 0) || (ci == 0 && current != 0) then
      if newValidation > current then newValidation else current
    else
      VALIDATION_MATRIX[ni][ci]
  }

  /** What a node's access value contributes. */
  function LevelOf(v: int): Level {
    if IsLevel(v) then v else 0
  }

  /** `a` demands no more than `b`: neither a stronger write right nor consent that `b` lacks. */
  predicate Below(a: Level, b: Level) {
    a % 10 <= b % 10 && (a >= 10 ==> b >= 10)
  }

  /** The matrix is the least upper bound of the two levels. */
  lemma SearchMaxIsJoin(v: int, current: Level, bound: Level)
    ensures Below(LevelOf(v), SearchMax(v, current)) && Below(current, SearchMax(v, current))
    ensures Below(LevelOf(v), bound) && Below(current, bound) ==> Below(SearchMax(v, current), bound)
  {
    assert IsLevel(current) && IsLevel(bound);
  }

  lemma BelowOrder(a: Level, b: Level, c: Level)
    ensures Below(a, a)
    ensures Below(a, b) && Below(b, a) ==> a == b
    ensures Below(a, b) && Below(b, c) ==> Below(a, c)
  {
    assert IsLevel(a) && IsLevel(b);
  }

  /** The running combination over a list of access values. */
  function JoinAll(vs: seq<int>, current: Level): Level
    decreases |vs|
  {
    if vs == [] then current else JoinAll(vs[1..], SearchMax(vs[0], current))
  }

  lemma {:induction false} JoinAllLeast(vs: seq<int>, current: Level, bound: Level)
    ensures Below(current, JoinAll(vs, current))
    ensures forall i :: 0 <= i < |vs| ==> Below(LevelOf(vs[i]), JoinAll(vs, current))
    ensures Below(current, bound) && (forall i :: 0 <= i < |vs| ==> Below(LevelOf(vs[i]), bound))
        ==> Below(JoinAll(vs, current), bound)
    decreases |vs|
  {
    if vs != [] {
      var next := SearchMax(vs[0], current);
      SearchMaxIsJoin(vs[0], current, bound);
      JoinAllLeast(vs[1..], next, bound);
      forall i | 0 <= i < |vs|
        ensures Below(LevelOf(vs[i]), JoinAll(vs, current))
      {
        if i > 0 {
          assert vs[i] == vs[1..][i - 1];
        }
      }
      if forall i :: 0 <= i < |vs| ==> Below(LevelOf(vs[i]), bound) {
        forall i | 0 <= i < |vs[1..]|
          ensures Below(LevelOf(vs[1..][i]), bound)
        {
          assert vs[1..][i] == vs[i + 1];
        }
      }
    }
  }

  /** The combination depends only on which values occur, not on their order or number. */
  lemma {:induction false} JoinAllOrderIndependent(vs: seq<int>, ws: seq<int>, current: Level)
    requires forall v :: v in vs <==> v in ws
    ensures JoinAll(vs, current) == JoinAll(ws, current)
  {
    JoinAllMembers(vs, ws, current);
    JoinAllMembers(ws, vs, current);
    BelowOrder(JoinAll(vs, current), JoinAll(ws, current), current);
  }

  lemma {:induction false} JoinAllMembers(vs: seq<int>, ws: seq<int>, current: Level)
    requires forall v :: v in vs ==> v in ws
    ensures Below(JoinAll(vs, current), JoinAll(ws, current))
  {
    var w := JoinAll(ws, current);
    JoinAllLeast(ws, current, w);
    forall i | 0 <= i < |vs|
      ensures Below(LevelOf(vs[i]), w)
    {
      assert vs[i] in ws;
    }
    JoinAllLeast(vs, current, w);
  }
}
