/** Byte strings as the server handles them: Go strings and file contents are sequences of bytes. */
module ByteStrings {

  type byte = x: int | 0 <= x < 256
  type bytes = seq<byte>

  const DOT: byte := 0x2E
  const STAR: byte := 0x2A

  /** An optional value, usable with `:-`. */
  datatype Option<+T> = None | Some(value: T) {
    predicate IsFailure() { None? }
    function PropagateFailure<U>(): Option<U> requires None? { None }
    function Extract(): T requires Some? { value }
  }

  /** The bytes of an ASCII literal. */
  function Ascii(s: string): (b: bytes)
    ensures |b| == |s|
  {
    seq(|s|, i requires 0 <= i < |s| => if s[i] < 128 as char then s[i] as int else 0)
  }

  /** What an older file leaves behind a newer one that is written over it without truncation. */
  function Leftover(old_: bytes, written: bytes): bytes {
    if |old_| > |written| then old_[|written|..] else []
  }

  /** A file that was written over: the new bytes, and behind them what is left of the old ones. */
  lemma Overwritten(old_: bytes, written: bytes)
    ensures var file := written + Leftover(old_, written);
            && |file| == (if |old_| < |written| then |written| else |old_|)
            && forall i :: 0 <= i < |file| ==> file[i] == if i < |written| then written[i] else old_[i]
  {
  }

  /** Position of the first occurrence of an element, or the length. */
  function IndexOf<T(==)>(s: seq<T>, x: T): (i: nat)
    ensures i <= |s| && (i < |s| ==> s[i] == x)
    ensures forall k :: 0 <= k < i ==> s[k] != x
  {
    if s == [] || s[0] == x then 0 else 1 + IndexOf(s[1..], x)
  }

  predicate OccursAt(s: bytes, sub: bytes, i: nat) {
    i + |sub| <= |s| && s[i..i + |sub|] == sub
  }

  /** Some occurrence of `sub` lies inside `s`. */
  predicate Contains(s: bytes, sub: bytes) {
    exists i :: 0 <= i <= |s| && OccursAt(s, sub, i)
  }

  ghost predicate HasPart(s: bytes, part: bytes) {
    exists front: bytes, back: bytes :: s == front + part + back
  }

  lemma {:induction false} PartIsContained(s: bytes, part: bytes)
    ensures HasPart(s, part) <==> Contains(s, part)
  {
    if front: bytes, back: bytes :| s == front + part + back {
      assert OccursAt(s, part, |front|);
    }
    if i :| 0 <= i <= |s| && OccursAt(s, part, i) {
      assert s == s[..i] + part + s[i + |part|..];
    }
  }

  /** No occurrence is possible when the first byte of `sub` is missing where it would have to be. */
  lemma NotContained(s: bytes, sub: bytes)
    requires |sub| > 0
    requires forall i :: 0 <= i <= |s| - |sub| ==> s[i] != sub[0]
    ensures !Contains(s, sub)
  {
    forall i | 0 <= i <= |s|
      ensures !OccursAt(s, sub, i)
    {
      assert i + |sub| <= |s| ==> s[i..i + |sub|][0] == s[i];
    }
  }
}
