/** The metadata of a subtree, character by character, from literals. */
module MetadataTexts {
  import opened ByteStrings
  import opened VssTree
  import opened JsonText
  import opened JsonTree

  function Quoted(s: text): text { Chars("\"") + s + Chars("\"") }

  /** A further member. */
  function Entry(key: string, value: text): text {
    Chars(",\"") + Chars(key) + Chars("\":") + value
  }

  /** A default that begins like an object or a list is given as such, its single quotes doubled. */
  function DefaultText(n: Node): text {
    if n.defaultValue == [] then []
    else if n.defaultValue[0] == '{' as int || n.defaultValue[0] == '[' as int then Entry("default", DoubleQuotes(n.defaultValue))
    else Entry("default", Quoted(n.defaultValue))
  }

  function DoubleQuotes(s: bytes): (r: text) {
    seq(|s|, i requires 0 <= i < |s| => if s[i] == '\'' as int then '\"' as int else s[i])
  }

  /** A node with its children, down to `levels` levels, as a member under its name. */
  function NodeText(n: Node, levels: nat): text
    requires levels >= 1
    decreases n, 0
  {
    Quoted(n.name) + Chars(":{\"type\":") + Quoted(n.nodeType) + DefaultText(n) + Entry("description", Quoted(n.description))
    + (if n.dataType == [] then [] else Entry("datatype", Quoted(n.dataType)))
    + (if levels == 1 || n.children == [] then []
       else Entry("children", Chars("{") + NodeTexts(n.children, levels - 1) + Chars("}")))
    + Chars("}")
  }

  function NodeTexts(ns: seq<Node>, levels: nat): text
    requires levels >= 1
    decreases ns, 1
  {
    if ns == [] then []
    else NodeText(ns[0], levels) + if |ns| == 1 then [] else Chars(",") + NodeTexts(ns[1..], levels)
  }

  lemma {:induction false} MoreConcat(a: seq<(text, Doc)>, b: seq<(text, Doc)>)
    ensures More(a + b) == More(a) + More(b)
    decreases |a|
  {
    hide PutField;
    if a == [] {
      assert a + b == b;
    } else {
      assert (a + b)[1..] == a[1..] + b && (a + b)[0] == a[0];
      MoreConcat(a[1..], b);
    }
  }

  lemma {:induction false} MoreOne(key: string, d: Doc)
    ensures More([(Chars(key), d)]) == Entry(key, Put(d, []))
  {
    hide Put;
    assert [(Chars(key), d)][1..] == [];
  }

  lemma PutString(s: text)
    ensures Put(Text(s), []) == Quoted(s)
  {
  }

  lemma {:induction false} DefaultIs(n: Node)
    ensures More(DefaultFields(n)) == DefaultText(n)
  {
    hide More, Entry, Quoted;
    assert More([]) == [] by { MoreNone(); }
    if n.defaultValue != [] {
      if IsStructured(n.defaultValue) {
        var json := SingleToDoubleQuote(n.defaultValue);
        MoreOne("default", Raw(json, RawTerm(json)));
        assert json == DoubleQuotes(n.defaultValue);
        assert json + [] == json;
      } else {
        MoreOne("default", Text(n.defaultValue));
        PutString(n.defaultValue);
      }
    }
  }

  lemma MoreNone()
    ensures More([]) == []
  {
  }

  /** The fields of a node behind its type. */
  function Behind(n: Node, levels: nat): seq<(text, Doc)>
    requires levels >= 1
  {
    DefaultFields(n) + [(Chars("description"), Text(n.description))]
    + (if n.dataType == [] then [] else [(Chars("datatype"), Text(n.dataType))])
    + (if levels > 1 && n.children != [] then [(Chars("children"), Record(ChildDocs(n.children, levels - 1)))] else [])
  }

  lemma {:induction false} NodeDocIs(n: Node, levels: nat)
    requires levels >= 1
    ensures NodeDoc(n, levels) == Record([(Chars("type"), Text(n.nodeType))] + Behind(n, levels))
  {
    hide DefaultFields, ChildDocs, Chars;
    var t := [(Chars("type"), Text(n.nodeType))];
    var d := [(Chars("description"), Text(n.description))];
    var dt := if n.dataType == [] then [] else [(Chars("datatype"), Text(n.dataType))];
    var c := if levels > 1 && n.children != [] then [(Chars("children"), Record(ChildDocs(n.children, levels - 1)))] else [];
    assert t + DefaultFields(n) + d + dt + c == t + (DefaultFields(n) + d + dt + c);
  }

  lemma {:induction false} BehindIs(n: Node, levels: nat)
    requires levels >= 1
    ensures More(Behind(n, levels))
         == DefaultText(n) + Entry("description", Quoted(n.description))
            + (if n.dataType == [] then [] else Entry("datatype", Quoted(n.dataType)))
            + (if levels > 1 && n.children != [] then Entry("children", Put(Record(ChildDocs(n.children, levels - 1)), [])) else [])
  {
    hide More, Entry, Quoted, DefaultFields, DefaultText, ChildDocs, Put, Chars;
    var d := [(Chars("description"), Text(n.description))];
    var dt := if n.dataType == [] then [] else [(Chars("datatype"), Text(n.dataType))];
    var c := if levels > 1 && n.children != [] then [(Chars("children"), Record(ChildDocs(n.children, levels - 1)))] else [];
    MoreConcat(DefaultFields(n) + d + dt, c);
    MoreConcat(DefaultFields(n) + d, dt);
    MoreConcat(DefaultFields(n), d);
    DefaultIs(n);
    MoreNone();
    MoreOne("description", Text(n.description));
    PutString(n.description);
    MoreOne("datatype", Text(n.dataType));
    PutString(n.dataType);
    if c != [] {
      MoreOne("children", Record(ChildDocs(n.children, levels - 1)));
    }
  }

  lemma {:induction false} NodeIs(n: Node, levels: nat)
    requires levels >= 1
    ensures PutField((n.name, NodeDoc(n, levels)), []) == NodeText(n, levels)
    decreases n, 0
  {
    hide NodeDoc, Behind, More, Entry, DefaultText, NodeTexts, ChildDocs, PutFields;
    NodeDocIs(n, levels);
    RecordText((Chars("type"), Text(n.nodeType)), Behind(n, levels));
    BehindIs(n, levels);
    if levels > 1 && n.children != [] {
      ChildrenAre(n.children, levels - 1);
    }
    PutString(n.nodeType);
    NodeParts(n.name, n.nodeType, More(Behind(n, levels)));
    hide PutField, Put, Quoted, Chars;
    Regroup(Quoted(n.name) + Chars(":{\"type\":") + Quoted(n.nodeType), DefaultText(n), Entry("description", Quoted(n.description)),
            if n.dataType == [] then [] else Entry("datatype", Quoted(n.dataType)),
            if levels > 1 && n.children != [] then Entry("children", Put(Record(ChildDocs(n.children, levels - 1)), [])) else [], Chars("}"));
  }

  lemma Regroup(h: text, a: text, b: text, c: text, d: text, end: text)
    ensures h + (a + b + c + d) + end == h + a + b + c + d + end
  {
    assert h + (a + b) == h + a + b;
    assert h + (a + b + c) == h + (a + b) + c;
    assert h + (a + b + c + d) == h + (a + b + c) + d;
  }

  lemma {:induction false} NodeParts(name: text, nodeType: text, more: text)
    ensures var f := (Chars("type"), Text(nodeType));
            PutText(name, [COLON] + ([OPEN_BRACE] + PutField(f, []) + more + [CLOSE_BRACE]))
            == Quoted(name) + Chars(":{\"type\":") + Quoted(nodeType) + more + Chars("}")
  {
    var f := (Chars("type"), Text(nodeType));
    assert Chars(":{\"type\":") == [COLON, OPEN_BRACE, QUOTE] + Chars("type") + [QUOTE, COLON];
    assert PutField(f, []) == [QUOTE] + Chars("type") + [QUOTE, COLON] + Quoted(nodeType);
    hide Chars;
  }

  lemma {:induction false} ChildrenAre(ns: seq<Node>, levels: nat)
    requires levels >= 1
    ensures Put(Record(ChildDocs(ns, levels)), []) == Chars("{") + NodeTexts(ns, levels) + Chars("}")
    decreases ns, 1
  {
    hide PutFields, ChildDocs, NodeTexts;
    FieldsAre(ns, levels);
    PutFieldsAppend(ChildDocs(ns, levels), [], [CLOSE_BRACE]);
    assert [] + [CLOSE_BRACE] == [CLOSE_BRACE] + [] == Chars("}") && Chars("{") == [OPEN_BRACE];
  }

  lemma {:induction false} FieldsAre(ns: seq<Node>, levels: nat)
    requires levels >= 1
    ensures PutFields(ChildDocs(ns, levels), []) == NodeTexts(ns, levels)
    decreases ns, 0
  {
    hide NodeDoc, NodeText, PutField;
    if ns != [] {
      NodeIs(ns[0], levels);
      FieldsAre(ns[1..], levels);
      assert ChildDocs(ns, levels)[1..] == ChildDocs(ns[1..], levels);
      if |ns| > 1 {
        var after := [COMMA] + PutFields(ChildDocs(ns[1..], levels), []);
        PutFieldAppend((ns[0].name, NodeDoc(ns[0], levels)), [], after);
        assert [] + after == after && Chars(",") == [COMMA];
      }
    }
  }

  /** The metadata printed for a subtree. */
  lemma {:induction false} SubTreeText(root: Node, levels: nat)
    requires levels >= 1
    ensures Put(Record([(root.name, NodeDoc(root, levels))]), []) == Chars("{") + NodeText(root, levels) + Chars("}")
  {
    hide NodeDoc, NodeText, PutField, PutFields, More;
    var f := (root.name, NodeDoc(root, levels));
    RecordText(f, []);
    MoreNone();
    assert [f] + [] == [f];
    NodeIs(root, levels);
    assert Chars("{") == [OPEN_BRACE] && Chars("}") == [CLOSE_BRACE];
  }
}
