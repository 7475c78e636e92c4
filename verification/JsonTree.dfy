/** The metadata printer: a subtree as JSON text, cut at a depth. */
module JsonTree {
  import opened ByteStrings
  import opened VssTree
  import opened JsonText

  // ----- what is printed of a node -----

  function SingleToDoubleQuote(s: bytes): (r: bytes)
    ensures |r| == |s| && forall i :: 0 <= i < |s| ==> r[i] == if s[i] == 0x27 then 0x22 else s[i]
  {
    seq(|s|, i requires 0 <= i < |s| => if s[i] == 0x27 then 0x22 else s[i])
  }

  method RunSingleToDoubleQuote(s: bytes) returns (r: bytes)
    ensures r == SingleToDoubleQuote(s)
  {
    r := s;
    var i := 0;
    while i < |r|
      invariant |r| == |s| && 0 <= i <= |s|
      invariant forall k :: 0 <= k < |s| ==> r[k] == if k < i && s[k] == 0x27 then 0x22 else s[k]
    {
      if r[i] == 0x27 {
        r := r[..i] + [0x22] + r[i + 1..];
      }
      i := i + 1;
    }
  }

  /** A default that is an object or an array goes in as it is, but for its quotes. */
  predicate IsStructured(s: bytes) {
    s != [] && (s[0] == OPEN_BRACE || s[0] == OPEN_BRACKET)
  }

  function RawTerm(json: text): Term {
    match ReadValue(json) case None => Str([]) case Some(r) => r.0
  }

  function DefaultFields(n: Node): seq<(text, Doc)> {
    if n.defaultValue == [] then []
    else if IsStructured(n.defaultValue) then
      var json := SingleToDoubleQuote(n.defaultValue);
      [(Chars("default"), Raw(json, RawTerm(json)))]
    else [(Chars("default"), Text(n.defaultValue))]
  }

  function BaseFields(n: Node): (fields: seq<(text, Doc)>)
    ensures fields != []
  {
    [(Chars("type"), Text(n.nodeType))]
    + DefaultFields(n)
    + [(Chars("description"), Text(n.description))]
    + if n.dataType == [] then [] else [(Chars("datatype"), Text(n.dataType))]
  }

  /** A node down to `levels` levels, itself included. */
  function NodeDoc(n: Node, levels: nat): Doc
    requires levels >= 1
    decreases n, 0
  {
    Record(BaseFields(n) + if levels > 1 && n.children != [] then [(Chars("children"), Record(ChildDocs(n.children, levels - 1)))] else [])
  }

  function ChildDocs(ns: seq<Node>, levels: nat): (fields: seq<(text, Doc)>)
    requires levels >= 1
    ensures |fields| == |ns|
    decreases ns, 1
  {
    if ns == [] then [] else [(ns[0].name, NodeDoc(ns[0], levels))] + ChildDocs(ns[1..], levels)
  }

  /** Metadata without JSON metacharacters; a structured default is JSON once its quotes are doubled. */
  ghost predicate PlainNode(n: Node) {
    && Plain(n.name) && Plain(n.nodeType) && Plain(n.description) && Plain(n.dataType)
    && (if IsStructured(n.defaultValue) then
          var json := SingleToDoubleQuote(n.defaultValue);
          ReadValue(json).Some? && ReadValue(json).value.1 == []
        else Plain(n.defaultValue))
  }

  ghost predicate PlainTree(n: Node) {
    PlainNode(n) && forall c :: c in n.children ==> PlainTree(c)
  }

  // ----- the text, with its commas trimmed as the program does -----

  function FieldsWithCommas(fields: seq<(text, Doc)>): text {
    if fields == [] then [] else PutField(fields[0], [COMMA]) + FieldsWithCommas(fields[1..])
  }

  function DropLast(s: text): text
    requires s != []
  {
    s[..|s| - 1]
  }

  function TrimComma(s: text): text {
    if |s| >= 2 && s[|s| - 1] == COMMA && s[|s| - 2] != CLOSE_BRACE then DropLast(s) else s
  }

  function Head(n: Node): (t: text)
    ensures t != []
  {
    PutText(n.name, [COLON, OPEN_BRACE]) + FieldsWithCommas(BaseFields(n))
  }

  function ChildrenOpen(): (t: text)
    ensures t != []
  {
    PutText(Chars("children"), [COLON, OPEN_BRACE])
  }

  /** `"name":{...},` for a node below `depth` levels, or nothing at the depth limit. */
  function Fragment(n: Node, depth: int, maxDepth: int): text
    decreases n, 0
  {
    if depth >= maxDepth then []
    else
      var buffer := if depth + 1 < maxDepth && n.children != []
                    then DropLast(Head(n) + ChildrenOpen() + Fragments(n.children, depth + 1, maxDepth)) + [CLOSE_BRACE]
                    else Head(n);
      TrimComma(buffer) + [CLOSE_BRACE, COMMA]
  }

  function Fragments(ns: seq<Node>, depth: int, maxDepth: int): text
    decreases ns, 1
  {
    if ns == [] then [] else Fragment(ns[0], depth, maxDepth) + Fragments(ns[1..], depth, maxDepth)
  }

  method JsonifyTreeNode(n: Node, depth: int, maxDepth: int) returns (buffer: text)
    ensures buffer == Fragment(n, depth, maxDepth)
    decreases n
  {
    hide FieldsWithCommas, TrimComma, DropLast, PutText, Chars;
    if depth >= maxDepth {
      return [];
    }
    buffer := PrintHead(n);
    if depth + 1 < maxDepth {
      if |n.children| > 0 {
        buffer := buffer + ChildrenOpen();
      }
      ghost var start := buffer;
      var i := 0;
      assert n.children[0..] == n.children;
      while i < |n.children|
        invariant 0 <= i <= |n.children| && buffer != []
        invariant buffer + Fragments(n.children[i..], depth + 1, maxDepth) == start + Fragments(n.children, depth + 1, maxDepth)
      {
        assert n.children[i..][1..] == n.children[i + 1..];
        var child := JsonifyTreeNode(n.children[i], depth + 1, maxDepth);
        buffer := buffer + child;
        i := i + 1;
      }
      assert buffer + Fragments(n.children[i..], depth + 1, maxDepth) == buffer;
      assert buffer == start + Fragments(n.children, depth + 1, maxDepth);
      if |n.children| > 0 {
        buffer := DropLast(buffer);
        buffer := buffer + [CLOSE_BRACE];
      } else {
        assert buffer == Head(n);
      }
    }
    buffer := TrimComma(buffer);
    buffer := buffer + [CLOSE_BRACE, COMMA];
  }

  method PrintHead(n: Node) returns (buffer: text)
    ensures buffer == Head(n)
  {
    hide PutText, Chars, SingleToDoubleQuote, RawTerm;
    HeadShape(n);
    buffer := PutText(n.name, [COLON, OPEN_BRACE]);
    buffer := buffer + PutText(Chars("type"), [COLON] + PutText(n.nodeType, [COMMA]));
    if |n.defaultValue| > 0 {
      if n.defaultValue[0] == OPEN_BRACE || n.defaultValue[0] == OPEN_BRACKET {
        var json := RunSingleToDoubleQuote(n.defaultValue);
        buffer := buffer + PutText(Chars("default"), [COLON] + (json + [COMMA]));
      } else {
        buffer := buffer + PutText(Chars("default"), [COLON] + PutText(n.defaultValue, [COMMA]));
      }
    }
    buffer := buffer + PutText(Chars("description"), [COLON] + PutText(n.description, [COMMA]));
    if n.dataType != [] {
      buffer := buffer + PutText(Chars("datatype"), [COLON] + PutText(n.dataType, [COMMA]));
    }
  }

  lemma {:induction false} CommasConcat(a: seq<(text, Doc)>, b: seq<(text, Doc)>)
    ensures FieldsWithCommas(a + b) == FieldsWithCommas(a) + FieldsWithCommas(b)
    decreases |a|
  {
    hide PutField;
    if a == [] {
      assert a + b == b;
    } else {
      assert (a + b)[1..] == a[1..] + b;
      CommasConcat(a[1..], b);
    }
  }

  lemma {:induction false} CommasOne(f: (text, Doc))
    ensures FieldsWithCommas([f]) == PutField(f, [COMMA])
  {
    hide PutField;
    assert [f][1..] == [];
  }

  lemma {:induction false} HeadShape(n: Node)
    ensures Head(n) == PutText(n.name, [COLON, OPEN_BRACE])
                     + PutField((Chars("type"), Text(n.nodeType)), [COMMA])
                     + FieldsWithCommas(DefaultFields(n))
                     + PutField((Chars("description"), Text(n.description)), [COMMA])
                     + (if n.dataType == [] then [] else PutField((Chars("datatype"), Text(n.dataType)), [COMMA]))
    ensures n.defaultValue == [] ==> FieldsWithCommas(DefaultFields(n)) == []
    ensures |DefaultFields(n)| == 1 ==> FieldsWithCommas(DefaultFields(n)) == PutField(DefaultFields(n)[0], [COMMA])
  {
    hide PutField, PutText, DefaultFields, FieldsWithCommas;
    var f1, f3 := (Chars("type"), Text(n.nodeType)), (Chars("description"), Text(n.description));
    var f4 := (Chars("datatype"), Text(n.dataType));
    var last := if n.dataType == [] then [] else [f4];
    CommasOne(f1);
    CommasOne(f3);
    CommasOne(f4);
    CommasNone();
    CommasConcat([f1], DefaultFields(n));
    CommasConcat([f1] + DefaultFields(n), [f3]);
    CommasConcat([f1] + DefaultFields(n) + [f3], last);
    DefaultShape(n);
  }

  lemma CommasNone()
    ensures FieldsWithCommas([]) == []
  {
  }

  lemma {:induction false} DefaultShape(n: Node)
    ensures n.defaultValue == [] ==> FieldsWithCommas(DefaultFields(n)) == []
    ensures |DefaultFields(n)| == 1 ==> FieldsWithCommas(DefaultFields(n)) == PutField(DefaultFields(n)[0], [COMMA])
  {
    hide PutField;
    if |DefaultFields(n)| == 1 {
      assert DefaultFields(n) == [DefaultFields(n)[0]];
      CommasOne(DefaultFields(n)[0]);
    }
  }

  // ----- the text is the JSON of the tree -----

  /** Fields with a comma behind each are fields with commas between them and one at the end. */
  lemma {:induction false} CommasArePut(fields: seq<(text, Doc)>)
    requires fields != []
    ensures FieldsWithCommas(fields) == PutFields(fields, []) + [COMMA]
    decreases fields
  {
    hide PutField;
    assert [] + [COMMA] == [COMMA];
    if |fields| == 1 {
      assert fields[1..] == [];
      PutFieldAppend(fields[0], [], [COMMA]);
    } else {
      CommasArePut(fields[1..]);
      var others := PutFields(fields[1..], []);
      PutFieldAppend(fields[0], [COMMA], others);
    }
  }

  lemma {:induction false} PutFieldsSnoc(fields: seq<(text, Doc)>, f: (text, Doc), rest: text)
    requires fields != []
    ensures PutFields(fields + [f], rest) == PutFields(fields, [COMMA] + PutField(f, rest))
    decreases |fields|
  {
    hide PutField;
    assert (fields + [f])[1..] == fields[1..] + [f];
    if |fields| == 1 {
      assert [] + [f] == [f];
    } else {
      PutFieldsSnoc(fields[1..], f, rest);
    }
  }

  /** Everything `BaseFields` prints ends in a quote, so its last comma is trimmed. */
  lemma {:induction false} HeadEnds(n: Node)
    ensures Head(n) == PutText(n.name, [COLON, OPEN_BRACE]) + PutFields(BaseFields(n), []) + [COMMA]
    ensures TrimComma(Head(n)) == PutText(n.name, [COLON, OPEN_BRACE]) + PutFields(BaseFields(n), [])
  {
    hide BaseFields, PutText, FieldsWithCommas, PutFields;
    CommasArePut(BaseFields(n));
    BaseEndsInQuote(n);
    var p := PutFields(BaseFields(n), []);
    var h := Head(n);
    assert h[|h| - 2] == p[|p| - 1];
    assert DropLast(h) == PutText(n.name, [COLON, OPEN_BRACE]) + p;
  }

  lemma {:induction false} BaseEndsInQuote(n: Node)
    ensures var p := PutFields(BaseFields(n), []); p != [] && p[|p| - 1] == QUOTE
  {
    hide PutFields, DefaultFields;
    var all := BaseFields(n);
    var f := all[|all| - 1];
    assert f.1.Text?;
    assert all == all[..|all| - 1] + [f];
    var init := all[..|all| - 1];
    PutFieldsSnoc(init, f, []);
    var tail := [COMMA] + PutField(f, []);
    PutFieldsAppend(init, [], tail);
    assert [] + tail == tail;
    assert tail[|tail| - 1] == QUOTE;
  }

  /** Each fragment is its node's member with a comma behind it. */
  lemma {:induction false} FragmentIsField(n: Node, depth: int, maxDepth: int)
    requires depth < maxDepth
    ensures Fragment(n, depth, maxDepth) == PutField((n.name, NodeDoc(n, maxDepth - depth)), [COMMA])
    decreases n, 0
  {
    hide BaseFields, PutText, FieldsWithCommas, PutFields, Head, TrimComma, Chars;
    var open := PutText(n.name, [COLON, OPEN_BRACE]);
    var base := PutFields(BaseFields(n), []);
    HeadEnds(n);
    if depth + 1 < maxDepth && n.children != [] {
      var kids := ChildDocs(n.children, maxDepth - depth - 1);
      var f := (Chars("children"), Record(kids));
      FragmentsAreFields(n.children, depth + 1, maxDepth);
      CommasArePut(kids);
      var put := PutFields(kids, []);
      var all := Head(n) + ChildrenOpen() + Fragments(n.children, depth + 1, maxDepth);
      assert all == Head(n) + ChildrenOpen() + put + [COMMA];
      var buffer := DropLast(all) + [CLOSE_BRACE];
      assert buffer == Head(n) + ChildrenOpen() + put + [CLOSE_BRACE];
      KeepBrace(buffer);
      assert Head(n) == open + base + [COMMA];
      RecordField(Chars("children"), kids);
      var child := PutField(f, []);
      assert ChildrenOpen() + put + [CLOSE_BRACE] == child;
      PutFieldsSnoc(BaseFields(n), f, []);
      PutFieldsAppend(BaseFields(n), [], [COMMA] + child);
      assert [] + ([COMMA] + child) == [COMMA] + child;
      assert PutFields(BaseFields(n) + [f], []) == base + [COMMA] + child;
      NodeField(n.name, BaseFields(n) + [f]);
      assert buffer == open + PutFields(BaseFields(n) + [f], []);
    } else {
      assert BaseFields(n) + [] == BaseFields(n);
      NodeField(n.name, BaseFields(n));
    }
  }

  lemma KeepBrace(s: text)
    requires s != [] && s[|s| - 1] == CLOSE_BRACE
    ensures TrimComma(s) == s
  {
  }

  lemma {:induction false} RecordField(name: text, fields: seq<(text, Doc)>)
    ensures PutField((name, Record(fields)), []) == PutText(name, [COLON, OPEN_BRACE]) + PutFields(fields, []) + [CLOSE_BRACE]
  {
    hide PutFields;
    PutFieldsAppend(fields, [], [CLOSE_BRACE]);
    assert [] + [CLOSE_BRACE] == [CLOSE_BRACE] && [CLOSE_BRACE] + [] == [CLOSE_BRACE];
  }

  lemma {:induction false} NodeField(name: text, fields: seq<(text, Doc)>)
    ensures PutField((name, Record(fields)), [COMMA])
         == PutText(name, [COLON, OPEN_BRACE]) + PutFields(fields, []) + [CLOSE_BRACE, COMMA]
  {
    hide PutFields, PutField, PutText;
    RecordField(name, fields);
    PutFieldAppend((name, Record(fields)), [], [COMMA]);
    assert [] + [COMMA] == [COMMA];
  }

  lemma {:induction false} FragmentsAreFields(ns: seq<Node>, depth: int, maxDepth: int)
    requires depth < maxDepth
    ensures Fragments(ns, depth, maxDepth) == FieldsWithCommas(ChildDocs(ns, maxDepth - depth))
    decreases ns, 1
  {
    hide Fragment, NodeDoc, PutField;
    if ns != [] {
      FragmentIsField(ns[0], depth, maxDepth);
      FragmentsAreFields(ns[1..], depth, maxDepth);
      var docs := ChildDocs(ns, maxDepth - depth);
      assert docs[1..] == ChildDocs(ns[1..], maxDepth - depth);
    }
  }

  lemma {:induction false} NodePrintable(n: Node, levels: nat)
    requires PlainTree(n) && levels >= 1
    ensures Printable(NodeDoc(n, levels))
    decreases n, 0
  {
    hide ReadValue;
    BasePrintable(n);
    if levels > 1 && n.children != [] {
      ChildrenPrintable(n.children, levels - 1);
      NamesPlain();
    }
  }

  lemma NamesPlain()
    ensures Plain(Chars("type")) && Plain(Chars("default")) && Plain(Chars("description"))
    ensures Plain(Chars("datatype")) && Plain(Chars("children"))
  {
  }

  lemma {:induction false} BasePrintable(n: Node)
    requires PlainNode(n)
    ensures forall f :: f in BaseFields(n) ==> Plain(f.0) && Printable(f.1)
  {
    hide ReadValue, Chars, Plain;
    NamesPlain();
    if IsStructured(n.defaultValue) {
      StructuredNotWord(SingleToDoubleQuote(n.defaultValue));
    } else {
      assert forall f :: f in DefaultFields(n) ==> Plain(f.0) && Printable(f.1);
    }
  }

  lemma {:induction false} StructuredNotWord(json: bytes)
    requires IsStructured(json) && ReadValue(json).Some?
    ensures !ReadValue(json).value.0.Word? && !IsSpace(json[0])
  {
    hide ReadMembers, ReadItems, ReadChars;
    NoSkip(json);
  }

  lemma {:induction false} ChildrenPrintable(ns: seq<Node>, levels: nat)
    requires levels >= 1 && forall n :: n in ns ==> PlainTree(n)
    ensures forall f :: f in ChildDocs(ns, levels) ==> Plain(f.0) && Printable(f.1)
    decreases ns, 1
  {
    hide NodeDoc, Printable, Plain;
    if ns != [] {
      NodePrintable(ns[0], levels);
      ChildrenPrintable(ns[1..], levels);
    }
  }

  // ----- reading the metadata back -----

  /** The value of a field list, member by member. */
  function BaseTerms(n: Node): seq<(text, Term)> {
    [(Chars("type"), Str(n.nodeType))]
    + (if n.defaultValue == [] then []
       else if IsStructured(n.defaultValue) then [(Chars("default"), RawTerm(SingleToDoubleQuote(n.defaultValue)))]
       else [(Chars("default"), Str(n.defaultValue))])
    + [(Chars("description"), Str(n.description))]
    + if n.dataType == [] then [] else [(Chars("datatype"), Str(n.dataType))]
  }

  /** The tree cut after `levels` levels, as a JSON value with children in order. */
  function NodeTerm(n: Node, levels: nat): Term
    requires levels >= 1
    decreases n, 0
  {
    Obj(BaseTerms(n) + if levels > 1 && n.children != [] then [(Chars("children"), Obj(ChildTerms(n.children, levels - 1)))] else [])
  }

  function ChildTerms(ns: seq<Node>, levels: nat): seq<(text, Term)>
    requires levels >= 1
    decreases ns, 1
  {
    if ns == [] then [] else [(ns[0].name, NodeTerm(ns[0], levels))] + ChildTerms(ns[1..], levels)
  }

  lemma {:induction false} TermsConcat(a: seq<(text, Doc)>, b: seq<(text, Doc)>)
    ensures TermsOf(a + b) == TermsOf(a) + TermsOf(b)
    decreases |a|
  {
    hide FieldTerm;
    if a == [] {
      assert a + b == b;
    } else {
      assert (a + b)[1..] == a[1..] + b;
      TermsConcat(a[1..], b);
    }
  }

  lemma {:induction false} TermsOne(f: (text, Doc))
    ensures TermsOf([f]) == [(f.0, TermOf(f.1))]
  {
    assert [f][1..] == [];
  }

  lemma {:induction false} BaseTermsOf(n: Node)
    ensures TermsOf(BaseFields(n)) == BaseTerms(n)
  {
    hide TermsOf, RawTerm, Chars, SingleToDoubleQuote;
    var f1, f3 := (Chars("type"), Text(n.nodeType)), (Chars("description"), Text(n.description));
    var f4 := (Chars("datatype"), Text(n.dataType));
    var d := DefaultFields(n);
    var last := if n.dataType == [] then [] else [f4];
    TermsOne(f1);
    TermsOne(f3);
    TermsOne(f4);
    TermsNone();
    if n.defaultValue != [] {
      TermsOne(d[0]);
    }
    TermsConcat([f1], d);
    TermsConcat([f1] + d, [f3]);
    TermsConcat([f1] + d + [f3], last);
  }

  lemma TermsNone()
    ensures TermsOf([]) == []
  {
  }

  lemma {:induction false} NodeTermOf(n: Node, levels: nat)
    requires levels >= 1
    ensures TermOf(NodeDoc(n, levels)) == NodeTerm(n, levels)
    decreases n, 0
  {
    hide TermsOf, BaseFields, BaseTerms, Chars;
    BaseTermsOf(n);
    if levels > 1 && n.children != [] {
      ChildTermsOf(n.children, levels - 1);
      var f := (Chars("children"), Record(ChildDocs(n.children, levels - 1)));
      TermsConcat(BaseFields(n), [f]);
      TermsOne(f);
    } else {
      assert BaseFields(n) + [] == BaseFields(n) && BaseTerms(n) + [] == BaseTerms(n);
    }
  }

  lemma {:induction false} ChildTermsOf(ns: seq<Node>, levels: nat)
    requires levels >= 1
    ensures TermsOf(ChildDocs(ns, levels)) == ChildTerms(ns, levels)
    decreases ns, 1
  {
    hide NodeDoc, NodeTerm;
    if ns != [] {
      NodeTermOf(ns[0], levels);
      ChildTermsOf(ns[1..], levels);
      assert ChildDocs(ns, levels)[1..] == ChildDocs(ns[1..], levels);
    }
  }

  /** The metadata of a found subtree: the fragment without its comma, in braces. Depth 0 means 100. */
  method PrintSubTree(root: Node, depth: int) returns (json: text)
    ensures json == [] <==> depth < 0
    ensures depth >= 0 ==> json == Put(Record([(root.name, NodeDoc(root, if depth == 0 then 100 else depth))]), [])
    ensures depth >= 0 && PlainTree(root) ==>
              ReadValue(json) == Some((Obj([(root.name, NodeTerm(root, if depth == 0 then 100 else depth))]), []))
  {
    hide Put, NodeDoc, NodeTerm, Printable, TermOf, Fragment, ReadValue, PlainTree;
    var limit := if depth == 0 then 100 else depth;
    var buffer := JsonifyTreeNode(root, 0, limit);
    FragmentEmpty(root, limit);
    if |buffer| == 0 {
      return [];
    }
    json := [OPEN_BRACE] + buffer[..|buffer| - 1] + [CLOSE_BRACE];
    var f := (root.name, NodeDoc(root, limit));
    SynthesizedIsPut(root, limit, f);
    if PlainTree(root) {
      NodePrintable(root, limit);
      NodeTermOf(root, limit);
      RecordPrintable(root, f);
      ReadPut(Record([f]), []);
    }
  }

  lemma {:induction false} FragmentEmpty(n: Node, maxDepth: int)
    ensures Fragment(n, 0, maxDepth) == [] <==> maxDepth <= 0
  {
    hide TrimComma, Head, Fragments;
  }

  lemma {:induction false} SynthesizedIsPut(root: Node, limit: nat, f: (text, Doc))
    requires limit >= 1 && f == (root.name, NodeDoc(root, limit))
    ensures Fragment(root, 0, limit) != []
    ensures [OPEN_BRACE] + DropLast(Fragment(root, 0, limit)) + [CLOSE_BRACE] == Put(Record([f]), [])
  {
    hide NodeDoc, Fragment, PutField;
    FragmentIsField(root, 0, limit);
    PutFieldAppend(f, [], [COMMA]);
    PutFieldAppend(f, [], [CLOSE_BRACE]);
    assert [] + [COMMA] == [COMMA] && [] + [CLOSE_BRACE] == [CLOSE_BRACE] && [CLOSE_BRACE] + [] == [CLOSE_BRACE];
    assert DropLast(PutField(f, []) + [COMMA]) == PutField(f, []);
  }

  lemma {:induction false} RecordPrintable(root: Node, f: (text, Doc))
    requires PlainTree(root) && f.0 == root.name && Printable(f.1)
    ensures Printable(Record([f])) && TermOf(Record([f])) == Obj([(f.0, TermOf(f.1))])
  {
    hide ReadValue;
    TermsOne(f);
  }
}
