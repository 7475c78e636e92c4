/**
 JSON text as section 7 of RFC 8259 and its surroundings define it: a reference reader, and a
 printer for values whose strings need no escapes. Text is a sequence of code points; byte strings
 are such sequences too. Objects keep their members in order. Numbers and the three literal names
 are kept as the characters they are written with, and a \u escape stands for its own code unit.
 */
module JsonText {
  import opened ByteStrings

  type text = seq<int>

  datatype Term =
    | Str(chars: text)
    | Obj(members: seq<(text, Term)>)
    | Arr(items: seq<Term>)
    | Word(chars: text)

  const QUOTE := 0x22
  const BACKSLASH := 0x5C
  const COMMA := 0x2C
  const COLON := 0x3A
  const OPEN_BRACE := 0x7B
  const CLOSE_BRACE := 0x7D
  const OPEN_BRACKET := 0x5B
  const CLOSE_BRACKET := 0x5D

  function Chars(s: string): (t: text)
    ensures |t| == |s| && forall i :: 0 <= i < |s| ==> t[i] == s[i] as int
  {
    seq(|s|, i requires 0 <= i < |s| => s[i] as int)
  }

  // ----- reading -----

  predicate IsSpace(c: int) { c == 0x20 || c == 0x09 || c == 0x0A || c == 0x0D }

  function SkipSpace(s: text): (r: text)
    ensures |r| <= |s|
    ensures r != [] ==> !IsSpace(r[0])
  {
    if s != [] && IsSpace(s[0]) then SkipSpace(s[1..]) else s
  }

  function HexValue(c: int): Option<int> {
    if 0x30 <= c <= 0x39 then Some(c - 0x30)
    else if 0x41 <= c <= 0x46 then Some(c - 0x41 + 10)
    else if 0x61 <= c <= 0x66 then Some(c - 0x61 + 10)
    else None
  }

  /** What a two-character escape stands for. */
  function SimpleEscape(c: int): Option<int> {
    if c == QUOTE || c == BACKSLASH || c == 0x2F then Some(c)
    else if c == 0x62 then Some(0x08)
    else if c == 0x66 then Some(0x0C)
    else if c == 0x6E then Some(0x0A)
    else if c == 0x72 then Some(0x0D)
    else if c == 0x74 then Some(0x09)
    else None
  }

  /** One character of a string, possibly escaped, and what follows it. */
  function ReadChar(s: text): (r: Option<(int, text)>)
    ensures r.Some? ==> |r.value.1| < |s|
  {
    if s == [] || s[0] == QUOTE || s[0] < 0x20 then None
    else if s[0] != BACKSLASH then Some((s[0], s[1..]))
    else if |s| < 2 then None
    else if s[1] == 0x75 then
      if |s| < 6 then None
      else
        var a :- HexValue(s[2]);
        var b :- HexValue(s[3]);
        var c :- HexValue(s[4]);
        var d :- HexValue(s[5]);
        Some((((a * 16 + b) * 16 + c) * 16 + d, s[6..]))
    else
      var c :- SimpleEscape(s[1]);
      Some((c, s[2..]))
  }

  /** The characters up to the closing quote, and what follows it. */
  function ReadChars(s: text): (r: Option<(text, text)>)
    ensures r.Some? ==> |r.value.1| < |s|
    decreases |s|
  {
    if s == [] then None
    else if s[0] == QUOTE then Some(([], s[1..]))
    else
      var c :- ReadChar(s);
      var r :- ReadChars(c.1);
      Some(([c.0] + r.0, r.1))
  }

  predicate IsWordChar(c: int) {
    0x30 <= c <= 0x39 || 0x61 <= c <= 0x7A || c == 0x45 || c == 0x2B || c == 0x2D || c == 0x2E
  }

  function WordLength(s: text): (n: nat)
    ensures n <= |s|
  {
    if s != [] && IsWordChar(s[0]) then 1 + WordLength(s[1..]) else 0
  }

  function ReadValue(s0: text): (r: Option<(Term, text)>)
    ensures r.Some? ==> |r.value.1| < |s0|
    decreases |s0|, 0
  {
    var s := SkipSpace(s0);
    if s == [] then None
    else if s[0] == QUOTE then
      var r :- ReadChars(s[1..]);
      Some((Str(r.0), r.1))
    else if s[0] == OPEN_BRACE then
      var s1 := SkipSpace(s[1..]);
      if s1 != [] && s1[0] == CLOSE_BRACE then Some((Obj([]), s1[1..]))
      else
        var r :- ReadMembers(s1);
        Some((Obj(r.0), r.1))
    else if s[0] == OPEN_BRACKET then
      var s1 := SkipSpace(s[1..]);
      if s1 != [] && s1[0] == CLOSE_BRACKET then Some((Arr([]), s1[1..]))
      else
        var r :- ReadItems(s1);
        Some((Arr(r.0), r.1))
    else
      var n := WordLength(s);
      if n == 0 then None else Some((Word(s[..n]), s[n..]))
  }

  /** A key, a colon and the text of its value. */
  function ReadKey(s0: text): (r: Option<(text, text)>)
    ensures r.Some? ==> |r.value.1| < |s0|
  {
    var s := SkipSpace(s0);
    if s == [] || s[0] != QUOTE then None
    else
      var key :- ReadChars(s[1..]);
      var s1 := SkipSpace(key.1);
      if s1 == [] || s1[0] != COLON then None else Some((key.0, s1[1..]))
  }

  function ReadMembers(s: text): (r: Option<(seq<(text, Term)>, text)>)
    ensures r.Some? ==> |r.value.1| < |s|
    decreases |s|
  {
    var key :- ReadKey(s);
    var value :- ReadValue(key.1);
    var s1 := SkipSpace(value.1);
    if s1 == [] then None
    else if s1[0] == CLOSE_BRACE then Some(([(key.0, value.0)], s1[1..]))
    else if s1[0] == COMMA then
      var r :- ReadMembers(s1[1..]);
      Some(([(key.0, value.0)] + r.0, r.1))
    else None
  }

  function ReadItems(s: text): (r: Option<(seq<Term>, text)>)
    ensures r.Some? ==> |r.value.1| < |s|
    decreases |s|, 1
  {
    var value :- ReadValue(s);
    var s1 := SkipSpace(value.1);
    if s1 == [] then None
    else if s1[0] == CLOSE_BRACKET then Some(([value.0], s1[1..]))
    else if s1[0] == COMMA then
      var r :- ReadItems(s1[1..]);
      Some(([value.0] + r.0, r.1))
    else None
  }

  // ----- more text after a value changes nothing -----

  lemma {:induction false} SkipSpaceAppend(s: text, more: text)
    requires SkipSpace(s) != []
    ensures SkipSpace(s + more) == SkipSpace(s) + more
  {
    if IsSpace(s[0]) {
      assert (s + more)[1..] == s[1..] + more;
      SkipSpaceAppend(s[1..], more);
    }
  }

  lemma {:induction false} ReadCharAppend(s: text, more: text)
    requires ReadChar(s).Some?
    ensures ReadChar(s + more) == Some((ReadChar(s).value.0, ReadChar(s).value.1 + more))
  {
    assert (s + more)[1..] == s[1..] + more;
    if |s| >= 2 {
      assert (s + more)[2..] == s[2..] + more;
    }
    if |s| >= 6 {
      assert (s + more)[6..] == s[6..] + more;
    }
  }

  lemma {:induction false} ReadCharsAppend(s: text, more: text)
    requires ReadChars(s).Some?
    ensures ReadChars(s + more) == Some((ReadChars(s).value.0, ReadChars(s).value.1 + more))
    decreases |s|
  {
    hide ReadChar;
    if s[0] == QUOTE {
      assert (s + more)[1..] == s[1..] + more;
    } else {
      ReadCharAppend(s, more);
      ReadCharsAppend(ReadChar(s).value.1, more);
    }
  }

  lemma {:induction false} WordLengthAppend(s: text, more: text)
    requires WordLength(s) < |s|
    ensures WordLength(s + more) == WordLength(s)
  {
    if IsWordChar(s[0]) {
      assert (s + more)[1..] == s[1..] + more;
      WordLengthAppend(s[1..], more);
    }
  }

  lemma {:induction false} ReadKeyAppend(s0: text, more: text)
    requires ReadKey(s0).Some?
    ensures ReadKey(s0 + more) == Some((ReadKey(s0).value.0, ReadKey(s0).value.1 + more))
  {
    hide ReadChars, SkipSpace;
    var s := SkipSpace(s0);
    SkipSpaceAppend(s0, more);
    assert (s + more)[1..] == s[1..] + more;
    ReadCharsAppend(s[1..], more);
    var key := ReadChars(s[1..]).value;
    var s1 := SkipSpace(key.1);
    SkipSpaceAppend(key.1, more);
    assert (s1 + more)[1..] == s1[1..] + more;
  }

  /** A value that was read whole, and is not a bare word at the end of the text. */
  predicate Closed(r: Option<(Term, text)>) {
    r.Some? && (r.value.1 != [] || !r.value.0.Word?)
  }

  lemma {:induction false} ReadValueAppend(s0: text, more: text)
    requires Closed(ReadValue(s0))
    ensures ReadValue(s0 + more) == Some((ReadValue(s0).value.0, ReadValue(s0).value.1 + more))
    decreases |s0|, 0
  {
    hide ReadChars, SkipSpace, ReadMembers, ReadItems, WordLength;
    var s := SkipSpace(s0);
    SkipSpaceAppend(s0, more);
    assert (s + more)[1..] == s[1..] + more;
    if s[0] == QUOTE {
      ReadCharsAppend(s[1..], more);
    } else if s[0] == OPEN_BRACE || s[0] == OPEN_BRACKET {
      var s1 := SkipSpace(s[1..]);
      if s1 == [] {
        EmptyHoldsNothing();
        assert false;
      }
      SkipSpaceAppend(s[1..], more);
      assert (s1 + more)[1..] == s1[1..] + more;
      if s[0] == OPEN_BRACE && s1[0] != CLOSE_BRACE {
        ReadMembersAppend(s1, more);
      } else if s[0] == OPEN_BRACKET && s1[0] != CLOSE_BRACKET {
        ReadItemsAppend(s1, more);
      }
    } else {
      var n := WordLength(s);
      WordLengthAppend(s, more);
      assert (s + more)[..n] == s[..n] && (s + more)[n..] == s[n..] + more;
    }
  }

  lemma EmptyHoldsNothing()
    ensures ReadMembers([]) == None && ReadItems([]) == None
  {
  }

  lemma {:induction false} ReadMembersAppend(s: text, more: text)
    requires ReadMembers(s).Some?
    ensures ReadMembers(s + more) == Some((ReadMembers(s).value.0, ReadMembers(s).value.1 + more))
    decreases |s|
  {
    hide ReadKey, ReadValue, SkipSpace;
    ReadKeyAppend(s, more);
    var key := ReadKey(s).value;
    var value := ReadValue(key.1).value;
    var s1 := SkipSpace(value.1);
    assert value.1 != [] by { SkipNothing(value.1); }
    ReadValueAppend(key.1, more);
    SkipSpaceAppend(value.1, more);
    assert (s1 + more)[1..] == s1[1..] + more;
    if s1[0] == COMMA {
      ReadMembersAppend(s1[1..], more);
    }
  }

  lemma SkipNothing(s: text)
    ensures s == [] ==> SkipSpace(s) == []
  {
  }

  lemma {:induction false} ReadItemsAppend(s: text, more: text)
    requires ReadItems(s).Some?
    ensures ReadItems(s + more) == Some((ReadItems(s).value.0, ReadItems(s).value.1 + more))
    decreases |s|, 1
  {
    hide ReadValue, SkipSpace;
    var value := ReadValue(s).value;
    var s1 := SkipSpace(value.1);
    assert value.1 != [] by { SkipNothing(value.1); }
    ReadValueAppend(s, more);
    SkipSpaceAppend(value.1, more);
    assert (s1 + more)[1..] == s1[1..] + more;
    if s1[0] == COMMA {
      ReadItemsAppend(s1[1..], more);
    }
  }

  // ----- printing without escapes -----

  /** Something to print: `Raw` is text that is already JSON. */
  datatype Doc =
    | Text(chars: text)
    | Record(fields: seq<(text, Doc)>)
    | Items(docs: seq<Doc>)
    | Raw(json: text, term: Term)

  /** No quote, backslash or control character. */
  predicate Plain(s: text) {
    forall i :: 0 <= i < |s| ==> s[i] >= 0x20 && s[i] != QUOTE && s[i] != BACKSLASH
  }

  ghost predicate Printable(d: Doc) {
    match d
    case Text(chars) => Plain(chars)
    case Record(fields) => forall f :: f in fields ==> Plain(f.0) && Printable(f.1)
    case Items(docs) => forall e :: e in docs ==> Printable(e)
    case Raw(json, term) => ReadValue(json) == Some((term, [])) && !term.Word? && json != [] && !IsSpace(json[0])
  }

  function PutText(chars: text, rest: text): text {
    [QUOTE] + chars + [QUOTE] + rest
  }

  function Put(d: Doc, rest: text): text
    decreases d, 1
  {
    match d
    case Text(chars) => PutText(chars, rest)
    case Record(fields) => [OPEN_BRACE] + PutFields(fields, [CLOSE_BRACE] + rest)
    case Items(docs) => [OPEN_BRACKET] + PutItems(docs, [CLOSE_BRACKET] + rest)
    case Raw(json, _) => json + rest
  }

  function PutItems(docs: seq<Doc>, rest: text): text
    decreases docs, 3
  {
    if docs == [] then rest
    else if |docs| == 1 then Put(docs[0], rest)
    else Put(docs[0], [COMMA] + PutItems(docs[1..], rest))
  }

  function PutField(f: (text, Doc), rest: text): text
    decreases f, 2
  {
    PutText(f.0, [COLON] + Put(f.1, rest))
  }

  function PutFields(fields: seq<(text, Doc)>, rest: text): text
    decreases fields, 3
  {
    if fields == [] then rest
    else if |fields| == 1 then PutField(fields[0], rest)
    else PutField(fields[0], [COMMA] + PutFields(fields[1..], rest))
  }

  function TermOf(d: Doc): Term
    decreases d, 1
  {
    match d
    case Text(chars) => Str(chars)
    case Record(fields) => Obj(TermsOf(fields))
    case Items(docs) => Arr(ItemTerms(docs))
    case Raw(_, term) => term
  }

  function ItemTerms(docs: seq<Doc>): (ts: seq<Term>)
    ensures |ts| == |docs|
    ensures forall i :: 0 <= i < |docs| ==> ts[i] == TermOf(docs[i])
    decreases docs, 3
  {
    if docs == [] then [] else [TermOf(docs[0])] + ItemTerms(docs[1..])
  }

  function TermsOf(fields: seq<(text, Doc)>): (ms: seq<(text, Term)>)
    ensures |ms| == |fields|
    decreases fields, 3
  {
    if fields == [] then [] else [FieldTerm(fields[0])] + TermsOf(fields[1..])
  }

  function FieldTerm(f: (text, Doc)): (text, Term)
    decreases f, 2
  {
    (f.0, TermOf(f.1))
  }

  lemma {:induction false} ReadPlain(chars: text, rest: text)
    requires Plain(chars)
    ensures ReadChars(chars + [QUOTE] + rest) == Some((chars, rest))
    decreases |chars|
  {
    var s := chars + [QUOTE] + rest;
    if chars == [] {
      assert s[1..] == rest;
    } else {
      assert s[1..] == chars[1..] + [QUOTE] + rest;
      ReadPlain(chars[1..], rest);
      assert [chars[0]] + chars[1..] == chars;
    }
  }

  lemma NoSkip(s: text)
    requires s != [] && !IsSpace(s[0])
    ensures SkipSpace(s) == s
  {
  }

  lemma {:induction false} ReadPutText(chars: text, rest: text)
    requires Plain(chars)
    ensures |PutText(chars, rest)| > 0 && PutText(chars, rest)[0] == QUOTE
    ensures ReadChars(PutText(chars, rest)[1..]) == Some((chars, rest))
    ensures SkipSpace(PutText(chars, rest)) == PutText(chars, rest)
  {
    hide ReadChars;
    ReadPlain(chars, rest);
    assert PutText(chars, rest)[1..] == chars + [QUOTE] + rest;
    NoSkip(PutText(chars, rest));
  }

  lemma {:induction false} ReadPutKey(key: text, rest: text)
    requires Plain(key)
    ensures ReadKey(PutText(key, [COLON] + rest)) == Some((key, rest))
  {
    hide ReadChars, PutText;
    ReadPutText(key, [COLON] + rest);
    NoSkip([COLON] + rest);
    assert ([COLON] + rest)[1..] == rest;
  }

  /** Printing is read back, whatever follows. */
  lemma {:induction false} ReadPut(d: Doc, rest: text)
    requires Printable(d)
    ensures ReadValue(Put(d, rest)) == Some((TermOf(d), rest))
    decreases d, 1
  {
    hide ReadChars, SkipSpace, PutText, ReadMembers, ReadItems, WordLength, PutFields, TermsOf, PutItems, ItemTerms;
    match d
    case Text(chars) =>
      ReadPutText(chars, rest);
    case Items(docs) =>
      var s := Put(d, rest);
      NoSkip(s);
      assert s[1..] == PutItems(docs, [CLOSE_BRACKET] + rest);
      assert ([CLOSE_BRACKET] + rest)[1..] == rest;
      ItemsStart(docs, [CLOSE_BRACKET] + rest);
      NoSkip(s[1..]);
      if docs != [] {
        ReadPutItems(docs, rest);
      }
    case Raw(json, term) =>
      ReadValueAppend(json, rest);
      assert [] + rest == rest;
    case Record(fields) =>
      var s := Put(d, rest);
      NoSkip(s);
      assert s[1..] == PutFields(fields, [CLOSE_BRACE] + rest);
      FieldsStart(fields, [CLOSE_BRACE] + rest);
      NoSkip(s[1..]);
      assert ([CLOSE_BRACE] + rest)[1..] == rest;
      if fields != [] {
        ReadPutFields(fields, rest);
      }
  }

  lemma {:induction false} DocStart(d: Doc, rest: text)
    requires Printable(d)
    ensures Put(d, rest) != [] && !IsSpace(Put(d, rest)[0]) && Put(d, rest)[0] != CLOSE_BRACKET
  {
    hide PutFields, PutItems, ReadMembers, ReadItems, ReadChars;
    if d.Raw? {
      NoSkip(d.json);
    }
  }

  lemma {:induction false} ItemsStart(docs: seq<Doc>, rest: text)
    requires rest != [] && rest[0] == CLOSE_BRACKET && forall e :: e in docs ==> Printable(e)
    ensures var s := PutItems(docs, rest);
            && s != [] && !IsSpace(s[0])
            && if docs == [] then s == rest && ItemTerms(docs) == [] else s[0] != CLOSE_BRACKET
  {
    hide Put, Printable;
    if |docs| == 1 {
      DocStart(docs[0], rest);
    } else if |docs| > 1 {
      DocStart(docs[0], [COMMA] + PutItems(docs[1..], rest));
    }
  }

  lemma {:induction false} ReadPutItems(docs: seq<Doc>, rest: text)
    requires docs != [] && forall e :: e in docs ==> Printable(e)
    ensures ReadItems(PutItems(docs, [CLOSE_BRACKET] + rest)) == Some((ItemTerms(docs), rest))
    decreases docs, 3
  {
    hide ReadValue, SkipSpace, Put, Printable, TermOf;
    if |docs| == 1 {
      var after := [CLOSE_BRACKET] + rest;
      ReadPut(docs[0], after);
      NoSkip(after);
      assert after[1..] == rest;
      assert ItemTerms(docs) == [TermOf(docs[0])];
    } else {
      var others := PutItems(docs[1..], [CLOSE_BRACKET] + rest);
      var after := [COMMA] + others;
      ReadPut(docs[0], after);
      NoSkip(after);
      assert after[1..] == others;
      ReadPutItems(docs[1..], rest);
      assert ItemTerms(docs) == [TermOf(docs[0])] + ItemTerms(docs[1..]);
    }
  }

  lemma {:induction false} FieldsStart(fields: seq<(text, Doc)>, rest: text)
    requires rest != [] && rest[0] == CLOSE_BRACE
    ensures PutFields(fields, rest) != []
    ensures if fields == [] then PutFields(fields, rest) == rest && TermsOf(fields) == []
            else PutFields(fields, rest)[0] == QUOTE
  {
    hide Put;
  }

  lemma {:induction false} ReadPutField(f: (text, Doc), rest: text)
    requires Plain(f.0) && Printable(f.1)
    ensures ReadKey(PutField(f, rest)) == Some((f.0, Put(f.1, rest)))
    ensures ReadValue(Put(f.1, rest)) == Some((TermOf(f.1), rest))
    decreases f, 2
  {
    hide ReadKey, ReadValue, PutText, Put, Printable;
    ReadPutKey(f.0, Put(f.1, rest));
    ReadPut(f.1, rest);
  }

  lemma {:induction false} ReadPutFields(fields: seq<(text, Doc)>, rest: text)
    requires fields != [] && forall f :: f in fields ==> Plain(f.0) && Printable(f.1)
    ensures ReadMembers(PutFields(fields, [CLOSE_BRACE] + rest)) == Some((TermsOf(fields), rest))
    decreases fields, 3
  {
    hide ReadKey, ReadValue, SkipSpace, PutField, Plain, Printable, TermOf;
    var f := fields[0];
    if |fields| == 1 {
      var after := [CLOSE_BRACE] + rest;
      ReadPutField(f, after);
      NoSkip(after);
      assert after[1..] == rest;
      assert TermsOf(fields) == [FieldTerm(f)];
    } else {
      var others := PutFields(fields[1..], [CLOSE_BRACE] + rest);
      var after := [COMMA] + others;
      ReadPutField(f, after);
      NoSkip(after);
      assert after[1..] == others;
      ReadPutFields(fields[1..], rest);
    }
  }

  // ----- what follows can be split off -----

  lemma {:induction false} PutAppend(d: Doc, a: text, b: text)
    ensures Put(d, a + b) == Put(d, a) + b
    decreases d, 1
  {
    match d
    case Text(chars) =>
    case Raw(_, _) =>
    case Record(fields) =>
      assert [CLOSE_BRACE] + (a + b) == [CLOSE_BRACE] + a + b;
      PutFieldsAppend(fields, [CLOSE_BRACE] + a, b);
    case Items(docs) =>
      assert [CLOSE_BRACKET] + (a + b) == [CLOSE_BRACKET] + a + b;
      PutItemsAppend(docs, [CLOSE_BRACKET] + a, b);
  }

  lemma {:induction false} PutItemsAppend(docs: seq<Doc>, a: text, b: text)
    ensures PutItems(docs, a + b) == PutItems(docs, a) + b
    decreases docs, 3
  {
    hide Put;
    if |docs| == 1 {
      PutAppend(docs[0], a, b);
    } else if |docs| > 1 {
      PutItemsAppend(docs[1..], a, b);
      var tail := [COMMA] + PutItems(docs[1..], a);
      assert [COMMA] + (PutItems(docs[1..], a) + b) == tail + b;
      PutAppend(docs[0], tail, b);
    }
  }

  lemma {:induction false} PutFieldAppend(f: (text, Doc), a: text, b: text)
    ensures PutField(f, a + b) == PutField(f, a) + b
    decreases f, 2
  {
    hide Put;
    PutAppend(f.1, a, b);
    assert [COLON] + (Put(f.1, a) + b) == [COLON] + Put(f.1, a) + b;
  }

  lemma {:induction false} PutFieldsAppend(fields: seq<(text, Doc)>, a: text, b: text)
    ensures PutFields(fields, a + b) == PutFields(fields, a) + b
    decreases fields, 3
  {
    hide PutField;
    if |fields| == 1 {
      PutFieldAppend(fields[0], a, b);
    } else if |fields| > 1 {
      PutFieldsAppend(fields[1..], a, b);
      var tail := [COMMA] + PutFields(fields[1..], a);
      assert [COMMA] + (PutFields(fields[1..], a) + b) == tail + b;
      PutFieldAppend(fields[0], tail, b);
    }
  }

  // ----- fields one behind the other -----

  /** Further fields, each behind a comma. */
  function More(fields: seq<(text, Doc)>): text {
    if fields == [] then [] else [COMMA] + PutField(fields[0], []) + More(fields[1..])
  }

  lemma {:induction false} FieldsAreMore(f: (text, Doc), fields: seq<(text, Doc)>, rest: text)
    ensures PutFields([f] + fields, rest) == PutField(f, []) + More(fields) + rest
    decreases |fields|
  {
    hide PutField;
    assert ([f] + fields)[1..] == fields;
    if fields == [] {
      PutFieldAppend(f, [], rest);
      assert [] + rest == rest;
    } else {
      assert [fields[0]] + fields[1..] == fields;
      FieldsAreMore(fields[0], fields[1..], rest);
      var after := [COMMA] + PutFields(fields, rest);
      PutFieldAppend(f, [], after);
      assert [] + after == after;
    }
  }

  lemma {:induction false} RecordText(f: (text, Doc), fields: seq<(text, Doc)>)
    ensures Put(Record([f] + fields), []) == [OPEN_BRACE] + PutField(f, []) + More(fields) + [CLOSE_BRACE]
  {
    hide PutField, PutFields;
    FieldsAreMore(f, fields, [CLOSE_BRACE] + []);
    assert [CLOSE_BRACE] + [] == [CLOSE_BRACE];
  }
}
