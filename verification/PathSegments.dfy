/** Segments of a dotted search path. */
module PathSegments {
  import opened ByteStrings

  /** Index of the first dot, or -1. */
  function IndexDot(s: bytes): (i: int)
    ensures -1 <= i < |s|
    ensures i >= 0 ==> s[i] == DOT
    ensures forall j :: 0 <= j < |s| && (i == -1 || j < i) ==> s[j] != DOT
  {
    if s == [] then -1
    else if s[0] == DOT then 0
    else
      var i := IndexDot(s[1..]);
      if i == -1 then -1 else i + 1
  }

  function DotCount(s: bytes): nat {
    if s == [] then 0 else (if s[0] == DOT then 1 else 0) + DotCount(s[1..])
  }

  /** All segments: the pieces between dots. */
  function Split(s: bytes): (segments: seq<bytes>)
    ensures |segments| >= 1
    decreases |s|
  {
    var d := IndexDot(s);
    if d == -1 then [s] else [s[..d]] + Split(s[d + 1..])
  }

  /** A dot in front of the path is not a delimiter. */
  function StripLeadingDot(path: bytes): bytes {
    if path != [] && path[0] == DOT then path[1..] else path
  }

  /** Segment `k`, counted from one; segments past the end repeat the last one. */
  function Segment(path: bytes, k: int): bytes
    requires k >= 1
  {
    var segments := Split(StripLeadingDot(path));
    segments[(if k <= |segments| then k else |segments|) - 1]
  }

  /** The same segment, found by dropping segments one at a time. */
  function Nth(s: bytes, k: int): bytes
    decreases |s|
  {
    var d := IndexDot(s);
    if d == -1 then s else if k <= 1 then s[..d] else Nth(s[d + 1..], k - 1)
  }

  lemma {:induction false} NthOfSplit(s: bytes, k: int)
    requires k >= 1
    ensures Nth(s, k) == Split(s)[(if k <= |Split(s)| then k else |Split(s)|) - 1]
    decreases |s|
  {
    hide IndexDot;
    var d := IndexDot(s);
    if d != -1 && k > 1 {
      NthOfSplit(s[d + 1..], k - 1);
    }
  }

  lemma {:induction false} SplitAt(s: bytes, d: nat)
    requires d < |s| && s[d] == DOT && forall j :: 0 <= j < d ==> s[j] != DOT
    ensures Split(s) == [s[..d]] + Split(s[d + 1..])
  {
    hide IndexDot;
    assert IndexDot(s) == d;
  }

  /** Joining with a dot and splitting undo each other. */
  lemma {:induction false} SplitJoin(s: bytes, t: bytes)
    ensures Split(s + [DOT] + t) == Split(s) + Split(t)
    decreases |s|
  {
    hide IndexDot;
    var full := s + [DOT] + t;
    var d := IndexDot(s);
    if d == -1 {
      hide Split;
      SplitAt(full, |s|);
      assert full[..|s|] == s && full[|s| + 1..] == t;
      SplitOne(s);
    } else {
      hide Split;
      SplitAt(full, d);
      SplitAt(s, d);
      assert full[d + 1..] == s[d + 1..] + [DOT] + t;
      assert full[..d] == s[..d];
      SplitJoin(s[d + 1..], t);
    }
  }

  lemma {:induction false} SplitOne(s: bytes)
    requires IndexDot(s) == -1
    ensures Split(s) == [s]
  {
  }

  /** There is one segment more than there are dots. */
  lemma {:induction false} SplitCount(s: bytes)
    ensures |Split(s)| == DotCount(s) + 1
    decreases |s|
  {
    var d := IndexDot(s);
    DotCountSplit(s, if d == -1 then |s| else d);
    if d == -1 {
      assert s[..|s|] == s && s[|s|..] == [];
    } else {
      SplitCount(s[d + 1..]);
      assert s[d..][1..] == s[d + 1..];
    }
  }

  lemma {:induction false} DotCountSplit(s: bytes, i: nat)
    requires i <= |s| && forall j :: 0 <= j < i ==> s[j] != DOT
    ensures DotCount(s) == DotCount(s[i..])
  {
    if i > 0 {
      DotCountSplit(s[1..], i - 1);
      assert s[1..][i - 1..] == s[i..];
    } else {
      assert s[0..] == s;
    }
  }

  /** Where the segment behind the delimiter at `front` starts. */
  function SegmentStart(path: bytes, front: nat): nat
    requires front < |path|
  {
    if path[front] == DOT then front + 1 else front
  }

  lemma NextDelimiter(path: bytes, front: nat)
    requires front < |path| && (front == 0 || path[front] == DOT)
    ensures var d := IndexDot(path[front + 1..]);
            var tail := path[SegmentStart(path, front)..];
            if d == -1 then IndexDot(tail) == -1
            else
              && front + 1 + d < |path| && path[front + 1 + d] == DOT
              && IndexDot(tail) == front + 1 + d - SegmentStart(path, front)
  {
    if path[front] != DOT {
      assert path[0..] == path;
    }
  }

  lemma SameTail(path: bytes, i: nat, j: nat)
    requires i + j <= |path|
    ensures path[i..][j..] == path[i + j..]
  {
  }

  lemma NthNext(s: bytes, k: int)
    requires IndexDot(s) != -1 && k >= 2
    ensures Nth(s, k) == Nth(s[IndexDot(s) + 1..], k - 1)
  {
  }

  lemma NthLast(s: bytes, k: int)
    requires IndexDot(s) == -1
    ensures Nth(s, k) == s
  {
  }

  /** Moving to the next delimiter drops one segment, or none when there is no further one. */
  lemma {:induction false} AdvanceSegment(path: bytes, front: nat, k: int)
    requires front < |path| && (front == 0 || path[front] == DOT) && k >= 2
    ensures var next := front + IndexDot(path[front + 1..]) + 1;
            && next < |path| && (next == 0 || path[next] == DOT)
            && Nth(path[SegmentStart(path, front)..], k) == Nth(path[SegmentStart(path, next)..], k - 1)
  {
    hide IndexDot, Nth;
    NextDelimiter(path, front);
    var tail := path[SegmentStart(path, front)..];
    if IndexDot(tail) != -1 {
      SameTail(path, SegmentStart(path, front), IndexDot(tail) + 1);
      NthNext(tail, k);
    } else {
      NthLast(tail, k);
      NthLast(tail, k - 1);
    }
  }

  lemma {:induction false} FirstSegment(path: bytes, front: nat)
    requires front < |path| && (front == 0 || path[front] == DOT)
    ensures var d := IndexDot(path[front + 1..]);
            var stop := if d == -1 then |path| else front + 1 + d;
            Nth(path[SegmentStart(path, front)..], 1) == path[SegmentStart(path, front)..stop]
  {
    NextDelimiter(path, front);
  }

  /** The scan for segment `depth`, delimiter by delimiter. The search path is never empty. */
  method GetPathSegment(path: bytes, depth: int) returns (segment: bytes)
    requires path != [] && depth >= 1
    ensures segment == Segment(path, depth)
  {
    hide Split, IndexDot, Nth;
    NthOfSplit(StripLeadingDot(path), depth);
    var front := 0;
    assert StripLeadingDot(path) == path[SegmentStart(path, 0)..];
    var i := 1;
    while i < depth
      invariant 1 <= i <= depth
      invariant 0 <= front < |path| && (front == 0 || path[front] == DOT)
      invariant Nth(StripLeadingDot(path), depth) == Nth(path[SegmentStart(path, front)..], depth - i + 1)
    {
      AdvanceSegment(path, front, depth - i + 1);
      front := front + IndexDot(path[front + 1..]) + 1;
      i := i + 1;
    }
    FirstSegment(path, front);
    var endDelimiter := IndexDot(path[front + 1..]) + front + 1;
    if endDelimiter == front {
      endDelimiter := |path|;
    }
    if path[front] == DOT {
      front := front + 1;
    }
    return path[front..endDelimiter];
  }
}
