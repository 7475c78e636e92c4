/** Escaping of strings put into JSON text. */
module JsonEscape {
  import opened ByteStrings
  import opened JsonText

  /** A Unicode scalar value. */
  type rune = c: int | 0 <= c < 0xD800 || 0xE000 <= c < 0x11_0000

  /** The bytes a rune is stored in. */
  function Utf8(c: rune): (b: bytes)
    ensures |b| > 0
    ensures c < 0x80 ==> b == [c]
    ensures c >= 0x80 ==> forall i :: 0 <= i < |b| ==> b[i] >= 0x80
  {
    if c < 0x80 then [c]
    else if c < 0x800 then [0xC0 + c / 64, 0x80 + c % 64]
    else if c < 0x1_0000 then [0xE0 + c / 4096, 0x80 + c / 64 % 64, 0x80 + c % 64]
    else [0xF0 + c / 262144, 0x80 + c / 4096 % 64, 0x80 + c / 64 % 64, 0x80 + c % 64]
  }

  function Utf8All(s: seq<rune>): bytes {
    if s == [] then [] else Utf8(s[0]) + Utf8All(s[1..])
  }

  predicate Special(c: int) { c < 0x20 || c == QUOTE || c == BACKSLASH }

  /** The scan for something to escape runs over bytes. */
  method NeedsEscape(b: bytes) returns (r: bool)
    ensures r <==> exists i :: 0 <= i < |b| && Special(b[i])
  {
    var i := 0;
    while i < |b|
      invariant 0 <= i <= |b|
      invariant forall k :: 0 <= k < i ==> !Special(b[k])
    {
      if Special(b[i]) {
        return true;
      }
      i := i + 1;
    }
    return false;
  }

  /** Bytes and runes agree on whether there is anything to escape. */
  lemma {:induction false} SpecialBytes(s: seq<rune>)
    ensures (exists i :: 0 <= i < |Utf8All(s)| && Special(Utf8All(s)[i])) <==> exists i :: 0 <= i < |s| && Special(s[i])
  {
    hide Utf8;
    if s != [] {
      var head, tail := Utf8(s[0]), Utf8All(s[1..]);
      SpecialBytes(s[1..]);
      if i :| 0 <= i < |Utf8All(s)| && Special(Utf8All(s)[i]) {
        if i >= |head| {
          assert Special(tail[i - |head|]);
          var k :| 0 <= k < |s[1..]| && Special(s[1..][k]);
          assert Special(s[k + 1]);
        } else {
          assert Special(s[0]);
        }
      }
      if i :| 0 <= i < |s| && Special(s[i]) {
        if i == 0 {
          assert Special(Utf8All(s)[0]);
        } else {
          assert Special(s[1..][i - 1]);
          var k :| 0 <= k < |tail| && Special(tail[k]);
          assert Special(Utf8All(s)[|head| + k]);
        }
      }
    }
  }

  /** A hexadecimal digit in lower case. */
  function HexDigit(v: int): int
    requires 0 <= v < 16
  {
    if v < 10 then 0x30 + v else 0x61 + v - 10
  }

  function EscapeRune(c: rune): text {
    if c == QUOTE then [BACKSLASH, QUOTE]
    else if c == BACKSLASH then [BACKSLASH, BACKSLASH]
    else if c == 0x0A then [BACKSLASH, 0x6E]
    else if c == 0x0D then [BACKSLASH, 0x72]
    else if c == 0x09 then [BACKSLASH, 0x74]
    else if c < 0x20 then [BACKSLASH, 0x75, 0x30, 0x30, HexDigit(c / 16 % 16), HexDigit(c % 16)]
    else [c]
  }

  function EscapeAll(s: seq<rune>): text {
    if s == [] then [] else EscapeRune(s[0]) + EscapeAll(s[1..])
  }

  lemma {:induction false} EscapeNothing(s: seq<rune>)
    requires forall i :: 0 <= i < |s| ==> !Special(s[i])
    ensures EscapeAll(s) == s
  {
    if s != [] {
      EscapeNothing(s[1..]);
    }
  }

  lemma {:induction false} EscapeSnoc(s: seq<rune>, i: nat)
    requires i < |s|
    ensures EscapeAll(s[..i + 1]) == EscapeAll(s[..i]) + EscapeRune(s[i])
    decreases i
  {
    hide EscapeRune;
    if i == 0 {
      assert s[..1] == [s[0]] && [s[0]][1..] == [];
    } else {
      assert s[..i + 1][1..] == s[1..][..i] && s[..i][1..] == s[1..][..i - 1];
      EscapeSnoc(s[1..], i - 1);
    }
  }

  /** The shortcut for strings with nothing to escape returns what the full loop would. */
  method Escape(s: seq<rune>) returns (out: text)
    ensures out == EscapeAll(s)
  {
    hide EscapeRune;
    SpecialBytes(s);
    var needed := NeedsEscape(Utf8All(s));
    if !needed {
      EscapeNothing(s);
      return s;
    }
    out := [];
    var i := 0;
    while i < |s|
      invariant 0 <= i <= |s|
      invariant out == EscapeAll(s[..i])
    {
      EscapeSnoc(s, i);
      out := out + EscapeRune(s[i]);
      i := i + 1;
    }
    assert s[..i] == s;
  }

  lemma {:induction false} ReadEscapedRune(c: rune, rest: text)
    ensures ReadChar(EscapeRune(c) + rest) == Some((c, rest)) && EscapeRune(c)[0] != QUOTE
  {
    var s := EscapeRune(c) + rest;
    assert s[|EscapeRune(c)|..] == rest;
  }

  /**
   A string reader reads the escaped string as the string itself, up to the quote put behind it:
   so the escaped string holds no unescaped quote, and nothing is lost.
   */
  lemma {:induction false} ReadEscaped(s: seq<rune>, rest: text)
    ensures ReadChars(EscapeAll(s) + [QUOTE] + rest) == Some((s, rest))
    decreases |s|
  {
    hide ReadChar, EscapeRune;
    var all := EscapeAll(s) + [QUOTE] + rest;
    if s == [] {
      assert all[1..] == rest;
    } else {
      var tail := EscapeAll(s[1..]) + [QUOTE] + rest;
      assert all == EscapeRune(s[0]) + tail;
      ReadEscapedRune(s[0], tail);
      ReadEscaped(s[1..], rest);
      assert [s[0]] + s[1..] == s;
    }
  }

  /** No control character is left. */
  lemma {:induction false} EscapedIsPrintable(s: seq<rune>)
    ensures forall i :: 0 <= i < |EscapeAll(s)| ==> EscapeAll(s)[i] >= 0x20
  {
    if s != [] {
      EscapedIsPrintable(s[1..]);
      assert forall i :: 0 <= i < |EscapeRune(s[0])| ==> EscapeRune(s[0])[i] >= 0x20;
    }
  }

  /** The escapes, from literals: five characters by a letter, other control characters by their code. */
  lemma {:induction false} EscapeTable(c: rune)
    ensures c == '\"' as int ==> EscapeRune(c) == Chars("\\\"")
    ensures c == '\\' as int ==> EscapeRune(c) == Chars("\\\\")
    ensures c == '\n' as int ==> EscapeRune(c) == Chars("\\n")
    ensures c == '\r' as int ==> EscapeRune(c) == Chars("\\r")
    ensures c == '\t' as int ==> EscapeRune(c) == Chars("\\t")
    ensures c < ' ' as int && c != '\n' as int && c != '\r' as int && c != '\t' as int ==>
              EscapeRune(c) == Chars("\\u00") + [Chars("0123456789abcdef")[c / 16], Chars("0123456789abcdef")[c % 16]]
    ensures c >= ' ' as int && c != '\"' as int && c != '\\' as int ==> EscapeRune(c) == [c]
  {
    assert forall v :: 0 <= v < 16 ==> Chars("0123456789abcdef")[v] == HexDigit(v);
  }
}
