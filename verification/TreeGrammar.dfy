/**
 The tree file as a grammar, in terms of bytes and literals only: which byte strings the reader takes
 for a tree, what tree that is, and what the writer produces. Nothing here is defined by the reader's
 or the writer's own functions.
 */
module TreeGrammar {
  import opened ByteStrings
  import opened VssTree
  import opened TreeFormat
  import opened TreeTheorems

  // ----- access rights -----

  lemma Literals()
    ensures Ascii("write-only") == WRITE_ONLY && Ascii("read-write") == READ_WRITE
    ensures Ascii("consent") == CONSENT && Ascii("+consent") == PLUS_CONSENT && Ascii("branch") == BRANCH
  {
  }

  /** The level a text of access rights stands for. */
  ghost function AccessLevel(s: bytes): (v: byte) {
    (if HasPart(s, Ascii("write-only")) then 1 else if HasPart(s, Ascii("read-write")) then 2 else 0)
    + (if HasPart(s, Ascii("consent")) then 10 else 0)
  }

  /** The reader's level, by the words in the text. */
  lemma {:induction false} TextDecidesLevel(s: bytes)
    ensures ValidateToInt(s) % 10 == 1 <==> HasPart(s, Ascii("write-only"))
    ensures ValidateToInt(s) % 10 == 2 <==> HasPart(s, Ascii("read-write")) && !HasPart(s, Ascii("write-only"))
    ensures ValidateToInt(s) >= 10 <==> HasPart(s, Ascii("consent"))
    ensures ValidateToInt(s) == AccessLevel(s)
  {
    hide HasPart, Contains, Ascii;
    Literals();
    PartIsContained(s, WRITE_ONLY);
    PartIsContained(s, READ_WRITE);
    PartIsContained(s, CONSENT);
  }

  /** The text written for a level: the words for 0, 1, 2; one word for every level with consent. */
  function AccessText(v: byte): (s: bytes) {
    if 10 <= v <= 19 then Ascii("+consent")
    else if v % 10 == 1 then Ascii("write-only")
    else if v % 10 == 2 then Ascii("read-write")
    else []
  }

  lemma {:induction false} LevelText(v: byte)
    ensures ValidateToString(v) == AccessText(v) && |AccessText(v)| < 256
  {
    Literals();
    hide Ascii;
  }

  // ----- lists of allowed values -----

  /** The value of a hexadecimal digit, or 16. */
  function DigitValue(d: byte): nat {
    var i := IndexOf(Ascii("0123456789ABCDEF"), d);
    if i < 16 then i
    else
      var j := IndexOf(Ascii("abcdef"), d);
      if j < 6 then 10 + j else 16
  }

  /** Each value behind its length in two hexadecimal digits. */
  ghost predicate IsAllowedText(text: bytes, defs: seq<bytes>)
    decreases |defs|
  {
    if defs == [] then text == []
    else
      && |text| >= 2 + |defs[0]|
      && DigitValue(text[0]) < 16 && DigitValue(text[1]) < 16 && DigitValue(text[0]) * 16 + DigitValue(text[1]) == |defs[0]|
      && text[2..2 + |defs[0]|] == defs[0]
      && IsAllowedText(text[2 + |defs[0]|..], defs[1..])
  }

  lemma DigitCodes()
    ensures forall i :: 0 <= i < 10 ==> Ascii("0123456789ABCDEF")[i] == 0x30 + i
    ensures forall i :: 10 <= i < 16 ==> Ascii("0123456789ABCDEF")[i] == 0x41 + i - 10
    ensures forall i :: 0 <= i < 6 ==> Ascii("abcdef")[i] == 0x61 + i
  {
  }

  lemma {:induction false} DigitsAre(d: byte)
    ensures HexToInt(d) == if DigitValue(d) < 16 then Some(DigitValue(d)) else None
  {
    DigitCodes();
    hide Ascii, IndexOf;
    var upper, lower := Ascii("0123456789ABCDEF"), Ascii("abcdef");
    if 0x30 <= d <= 0x39 {
      assert upper[d - 0x30] == d;
    } else if 0x41 <= d <= 0x46 {
      assert upper[d - 0x41 + 10] == d;
    } else if 0x61 <= d <= 0x66 {
      assert lower[d - 0x61] == d;
    }
  }

  lemma {:induction false} AllowedGrammar(text: bytes, defs: seq<bytes>)
    ensures ParseAllowed(text) == Some(defs) <==> IsAllowedText(text, defs)
    decreases |text|
  {
    hide DigitValue, HexToInt;
    if |text| >= 2 {
      DigitsAre(text[0]);
      DigitsAre(text[1]);
      var next := NextAllowed(text);
      if next.Some? && defs != [] {
        AllowedGrammar(next.value.1, defs[1..]);
        assert defs == [defs[0]] + defs[1..];
      }
    }
  }

  // ----- one node -----

  /** The texts of a node, in the order of the file. */
  datatype NodeText = NodeText(
    name: bytes, nodeType: bytes, uuid: bytes, description: bytes,
    dataType: bytes, min: bytes, max: bytes, unit: bytes,
    allowed: bytes, defaultValue: bytes, access: bytes)

  ghost predicate Fitting(t: NodeText) {
    && |t.name| < 256 && |t.nodeType| < 256 && |t.uuid| < 256 && |t.description| < 65536
    && |t.dataType| < 256 && |t.min| < 256 && |t.max| < 256 && |t.unit| < 256
    && |t.allowed| < 65536 && |t.defaultValue| < 256 && |t.access| < 256
  }

  /** A text behind its length in one byte. */
  function Short(x: bytes): bytes
    requires |x| < 256
  {
    [|x|] + x
  }

  /** A text behind its length in two bytes, the lower one first. */
  function Long(x: bytes): bytes
    requires |x| < 65536
  {
    [|x| % 256, |x| / 256] + x
  }

  /** The bytes of a node: its texts, and the number of its children. */
  function NodeBytes(t: NodeText, count: byte): bytes
    requires Fitting(t)
  {
    NamePart(t) + TypePart(t) + ValuePart(t, count)
  }

  function NamePart(t: NodeText): bytes
    requires Fitting(t)
  {
    Short(t.name) + Short(t.nodeType) + Short(t.uuid) + Long(t.description)
  }

  function TypePart(t: NodeText): bytes
    requires Fitting(t)
  {
    Short(t.dataType) + Short(t.min) + Short(t.max) + Short(t.unit)
  }

  function ValuePart(t: NodeText, count: byte): bytes
    requires Fitting(t)
  {
    Long(t.allowed) + Short(t.defaultValue) + Short(t.access) + [count]
  }

  /** The node these texts make: a branch has no datatype, and the values are counted in one byte. */
  ghost predicate Makes(t: NodeText, n: Node) {
    && n.name == t.name && n.nodeType == t.nodeType && n.uuid == t.uuid && n.description == t.description
    && n.dataType == (if t.nodeType == Ascii("branch") then [] else t.dataType)
    && n.min == t.min && n.max == t.max && n.unit == t.unit && n.defaultValue == t.defaultValue
    && n.validate == AccessLevel(t.access)
    && exists defs :: IsAllowedText(t.allowed, defs) && n.allowedDef == defs[..|defs| % 256]
  }

  lemma {:induction false} Get8Iff(s: bytes, x: bytes, rest: bytes)
    ensures Get8(s) == Some((x, rest)) <==> |x| < 256 && s == Short(x) + rest
  {
    if Get8(s) == Some((x, rest)) {
      assert s == [s[0]] + s[1..1 + s[0] as int] + s[1 + s[0] as int..];
    }
    if |x| < 256 && s == Short(x) + rest {
      assert s == Put8(x, rest);
      GetPut8(x, rest);
    }
  }

  lemma {:induction false} Get16Iff(s: bytes, x: bytes, rest: bytes)
    ensures Get16(s) == Some((x, rest)) <==> |x| < 65536 && s == Long(x) + rest
  {
    if Get16(s) == Some((x, rest)) {
      var n := Uint16(s[0], s[1]);
      assert s == [s[0], s[1]] + s[2..2 + n] + s[2 + n..];
    }
    if |x| < 65536 && s == Long(x) + rest {
      assert s == Put16(x, rest);
      GetPut16(x, rest);
    }
  }

  lemma {:induction false} NamesIff(s: bytes, t: NodeText, rest: bytes)
    requires Fitting(t)
    ensures ParseNames(s) == Some((Names(t.name, t.nodeType, t.uuid, t.description), rest)) <==> s == NamePart(t) + rest
  {
    hide Get8, Get16, Short, Long;
    var s3 := Long(t.description) + rest;
    var s2 := Short(t.uuid) + s3;
    var s1 := Short(t.nodeType) + s2;
    assert NamePart(t) + rest == Short(t.name) + s1;
    Get8Iff(s, t.name, s1);
    Get8Iff(s1, t.nodeType, s2);
    Get8Iff(s2, t.uuid, s3);
    Get16Iff(s3, t.description, rest);
    if ParseNames(s) == Some((Names(t.name, t.nodeType, t.uuid, t.description), rest)) {
      var r1 := Get8(s).value.1;
      var r2 := Get8(r1).value.1;
      var r3 := Get8(r2).value.1;
      Get8Iff(s, t.name, r1);
      Get8Iff(r1, t.nodeType, r2);
      Get8Iff(r2, t.uuid, r3);
      Get16Iff(r3, t.description, rest);
    }
  }

  lemma {:induction false} TypingIff(s: bytes, t: NodeText, rest: bytes)
    requires Fitting(t)
    ensures ParseTyping(s) == Some((Typing(t.dataType, t.min, t.max, t.unit), rest)) <==> s == TypePart(t) + rest
  {
    hide Get8, Short;
    var s3 := Short(t.unit) + rest;
    var s2 := Short(t.max) + s3;
    var s1 := Short(t.min) + s2;
    assert TypePart(t) + rest == Short(t.dataType) + s1;
    Get8Iff(s, t.dataType, s1);
    Get8Iff(s1, t.min, s2);
    Get8Iff(s2, t.max, s3);
    Get8Iff(s3, t.unit, rest);
    if ParseTyping(s) == Some((Typing(t.dataType, t.min, t.max, t.unit), rest)) {
      var r1 := Get8(s).value.1;
      var r2 := Get8(r1).value.1;
      var r3 := Get8(r2).value.1;
      Get8Iff(s, t.dataType, r1);
      Get8Iff(r1, t.min, r2);
      Get8Iff(r2, t.max, r3);
      Get8Iff(r3, t.unit, rest);
    }
  }

  /** The values of a node that was read, with the text they were listed in. */
  lemma {:induction false} ValuesParsed(s: bytes) returns (allowed: bytes, defs: seq<bytes>)
    requires ParseValues(s).Some?
    ensures var (v, rest) := ParseValues(s).value;
            && |allowed| < 65536 && |v.defaultValue| < 256 && |v.validate| < 256
            && ParseAllowed(allowed) == Some(defs) && v.allowedDef == KeepAllowed(defs)
            && s == Long(allowed) + Short(v.defaultValue) + Short(v.validate) + [v.count] + rest
  {
    hide Get8, Get16, Short, Long, ParseAllowed;
    var (v, rest) := ParseValues(s).value;
    var a := Get16(s).value;
    var d := Get8(a.1).value;
    var c := Get8(d.1).value;
    allowed, defs := a.0, ParseAllowed(a.0).value;
    Get16Iff(s, a.0, a.1);
    Get8Iff(a.1, d.0, d.1);
    Get8Iff(d.1, c.0, c.1);
    assert c.1 == [v.count] + rest;
    assert s == Long(allowed) + (Short(v.defaultValue) + (Short(v.validate) + ([v.count] + rest)));
  }

  lemma {:induction false} ValuesRead(t: NodeText, count: byte, rest: bytes, defs: seq<bytes>)
    requires Fitting(t) && ParseAllowed(t.allowed) == Some(defs)
    ensures ParseValues(ValuePart(t, count) + rest) == Some((Values(KeepAllowed(defs), t.defaultValue, t.access, count), rest))
  {
    hide Get8, Get16, Short, Long, ParseAllowed, KeepAllowed;
    var s := ValuePart(t, count) + rest;
    var s3 := [count] + rest;
    var s2 := Short(t.access) + s3;
    var s1 := Short(t.defaultValue) + s2;
    assert s == Long(t.allowed) + s1;
    Get16Iff(s, t.allowed, s1);
    Get8Iff(s1, t.defaultValue, s2);
    Get8Iff(s2, t.access, s3);
    assert s3[1..] == rest;
  }

  /** `s` begins with the bytes of a node that makes `n`. */
  ghost predicate IsNode(s: bytes, t: NodeText, n: Node, count: byte, rest: bytes) {
    Fitting(t) && Makes(t, n) && s == NodeBytes(t, count) + rest
  }

  lemma {:induction false} NodeParsed(s: bytes) returns (t: NodeText)
    requires ParseFields(s).Some?
    ensures var h := ParseFields(s).value; IsNode(s, t, h.node, h.count, h.rest) && h.node.children == []
  {
    hide ParseNames, ParseTyping, ParseValues, ValidateToInt, AccessLevel, KeepAllowed, Short, Long, Ascii, IsAllowedText, ParseAllowed;
    var names := ParseNames(s).value;
    var typing := ParseTyping(names.1).value;
    var (v, rest) := ParseValues(typing.1).value;
    var allowed, defs := ValuesParsed(typing.1);
    var (n, ty) := (names.0, typing.0);
    t := NodeText(n.name, n.nodeType, n.uuid, n.description, ty.dataType, ty.min, ty.max, ty.unit, allowed, v.defaultValue, v.validate);
    NamesIff(s, t, names.1);
    TypingIff(names.1, t, typing.1);
    TextDecidesLevel(v.validate);
    AllowedGrammar(allowed, defs);
    KeepIs(defs);
    Literals();
    assert typing.1 == ValuePart(t, v.count) + rest;
    Parts(NamePart(t), TypePart(t), ValuePart(t, v.count), rest);
  }

  lemma KeepIs(defs: seq<bytes>)
    ensures KeepAllowed(defs) == defs[..|defs| % 256]
  {
  }

  lemma Parts(a: bytes, b: bytes, c: bytes, d: bytes)
    ensures a + (b + (c + d)) == a + b + c + d
  {
  }

  lemma {:induction false} NodeRead(s: bytes, t: NodeText, n: Node, count: byte, rest: bytes)
    requires IsNode(s, t, n, count, rest) && n.children == []
    ensures ParseFields(s) == Some(Header(n, count, rest))
  {
    hide ParseNames, ParseTyping, ParseValues, KeepAllowed, NamePart, TypePart, ValuePart, Makes, MakeNode, ParseAllowed, Fitting;
    var defs := Made(t, n);
    Parts(NamePart(t), TypePart(t), ValuePart(t, count), rest);
    NamesIff(s, t, TypePart(t) + (ValuePart(t, count) + rest));
    TypingIff(TypePart(t) + (ValuePart(t, count) + rest), t, ValuePart(t, count) + rest);
    ValuesRead(t, count, rest, defs);
  }

  lemma {:induction false} Made(t: NodeText, n: Node) returns (defs: seq<bytes>)
    requires Makes(t, n) && n.children == []
    ensures ParseAllowed(t.allowed) == Some(defs)
    ensures forall count :: MakeNode(Names(t.name, t.nodeType, t.uuid, t.description), Typing(t.dataType, t.min, t.max, t.unit),
                                     Values(KeepAllowed(defs), t.defaultValue, t.access, count)) == n
  {
    hide ValidateToInt, AccessLevel, KeepAllowed, Ascii, IsAllowedText, ParseAllowed;
    defs :| IsAllowedText(t.allowed, defs) && n.allowedDef == defs[..|defs| % 256];
    AllowedGrammar(t.allowed, defs);
    KeepIs(defs);
    TextDecidesLevel(t.access);
    Literals();
  }

  /** A node is read exactly from the bytes of its texts. */
  lemma {:induction false} NodeIff(s: bytes, n: Node, count: byte, rest: bytes)
    requires n.children == []
    ensures ParseFields(s) == Some(Header(n, count, rest)) <==> exists t :: IsNode(s, t, n, count, rest)
  {
    hide ParseFields, IsNode;
    if ParseFields(s) == Some(Header(n, count, rest)) {
      var t := NodeParsed(s);
    }
    if t :| IsNode(s, t, n, count, rest) {
      NodeRead(s, t, n, count, rest);
    }
  }

  // ----- a whole tree -----

  datatype TreeText = TreeText(node: NodeText, children: seq<TreeText>)

  ghost predicate FittingTree(t: TreeText) {
    Fitting(t.node) && |t.children| < 256 && forall c :: c in t.children ==> FittingTree(c)
  }

  /** A node, then its children one after the other. */
  ghost function TreeBytes(t: TreeText): bytes
    requires FittingTree(t)
    decreases t, 0
  {
    NodeBytes(t.node, |t.children|) + ForestBytes(t.children)
  }

  ghost function ForestBytes(ts: seq<TreeText>): bytes
    requires forall t :: t in ts ==> FittingTree(t)
    decreases ts, 1
  {
    if ts == [] then [] else TreeBytes(ts[0]) + ForestBytes(ts[1..])
  }

  ghost predicate MakesTree(t: TreeText, n: Node)
    decreases t
  {
    && Makes(t.node, n) && |t.children| == |n.children|
    && forall i :: 0 <= i < |t.children| ==> MakesTree(t.children[i], n.children[i])
  }

  ghost predicate IsTree(s: bytes, t: TreeText, n: Node, rest: bytes) {
    FittingTree(t) && MakesTree(t, n) && s == TreeBytes(t) + rest
  }

  ghost predicate IsForest(s: bytes, ts: seq<TreeText>, ns: seq<Node>, rest: bytes) {
    && |ts| == |ns| && (forall t :: t in ts ==> FittingTree(t)) && s == ForestBytes(ts) + rest
    && forall i :: 0 <= i < |ts| ==> MakesTree(ts[i], ns[i])
  }

  lemma {:induction false} TreeParsed(m: Meta, s: bytes) returns (t: TreeText)
    requires ReadTree(m, s).Read?
    ensures IsTree(s, t, ReadTree(m, s).value, ReadTree(m, s).rest)
    decreases |s|, 0
  {
    hide ParseFields, NodeBytes, Makes, ForestBytes, MakesTree, FittingTree;
    var h := ParseFields(s).value;
    var node := NodeParsed(s);
    var children := ForestParsed(m.Enter(), h.count, h.rest);
    t := TreeText(node, children);
    TreeOf(t, ReadTree(m, s).value, h.node);
    Parts(NodeBytes(node, h.count), ForestBytes(children), ReadTree(m, s).rest, []);
    assert NodeBytes(node, h.count) + (ForestBytes(children) + ReadTree(m, s).rest) == TreeBytes(t) + ReadTree(m, s).rest by {
      assert TreeBytes(t) == NodeBytes(node, h.count) + ForestBytes(children);
    }
  }

  lemma TreeOf(t: TreeText, n: Node, bare: Node)
    requires Fitting(t.node) && |t.children| == |n.children| < 256 && Makes(t.node, bare) && n == bare.(children := n.children)
    requires forall c :: c in t.children ==> FittingTree(c)
    requires forall i :: 0 <= i < |t.children| ==> MakesTree(t.children[i], n.children[i])
    ensures FittingTree(t) && MakesTree(t, n)
  {
    hide Ascii, AccessLevel, IsAllowedText;
  }

  lemma {:induction false} ForestParsed(m: Meta, count: nat, s: bytes) returns (ts: seq<TreeText>)
    requires ReadForest(m, count, s).Read?
    ensures IsForest(s, ts, ReadForest(m, count, s).value, ReadForest(m, count, s).rest)
    decreases |s|, count + 1
  {
    hide ReadTree, MakesTree, FittingTree, TreeBytes;
    if count == 0 {
      ts := [];
      assert [] + s == s;
    } else {
      var r := ReadTree(m, s);
      var first := TreeParsed(m, s);
      var others := ForestParsed(r.meta, count - 1, r.rest);
      var rest := ReadForest(r.meta, count - 1, r.rest).rest;
      ts := [first] + others;
      assert ts[1..] == others;
      assert TreeBytes(first) + (ForestBytes(others) + rest) == ForestBytes(ts) + rest;
    }
  }

  lemma {:induction false} TreeRead(m: Meta, s: bytes, t: TreeText, n: Node, rest: bytes)
    requires IsTree(s, t, n, rest) && m.currentDepth <= m.maxTreeDepth
    requires m.currentDepth + Height(n) <= MAX_TREE_DEPTH && m.totalNodes + Size(n) <= MAX_TREE_NODES
    ensures ReadTree(m, s)
         == Read(n, rest, Meta(m.currentDepth, Max(m.maxTreeDepth, m.currentDepth + Height(n)), m.totalNodes + Size(n)))
    decreases t, 0
  {
    hide ParseFields, NodeBytes, Makes, ForestBytes;
    var count, below := |t.children|, ForestBytes(t.children) + rest;
    assert s == NodeBytes(t.node, count) + below;
    var bare := n.(children := []);
    Bare(t.node, n);
    assert IsNode(s, t.node, bare, count, below);
    NodeRead(s, t.node, bare, count, below);
    ForestRead(m.Enter(), below, t.children, n.children, rest);
  }

  lemma Bare(t: NodeText, n: Node)
    requires Makes(t, n)
    ensures Makes(t, n.(children := []))
  {
    hide Ascii, AccessLevel, IsAllowedText;
  }

  lemma {:induction false} ForestRead(m: Meta, s: bytes, ts: seq<TreeText>, ns: seq<Node>, rest: bytes)
    requires IsForest(s, ts, ns, rest) && m.currentDepth <= m.maxTreeDepth
    requires m.currentDepth + ForestHeight(ns) <= MAX_TREE_DEPTH && m.totalNodes + ForestSize(ns) <= MAX_TREE_NODES
    ensures ReadForest(m, |ns|, s)
         == Read(ns, rest, Meta(m.currentDepth, Max(m.maxTreeDepth, m.currentDepth + ForestHeight(ns)), m.totalNodes + ForestSize(ns)))
    decreases ts, 1
  {
    hide ReadTree, MakesTree, FittingTree, TreeBytes;
    if ts == [] {
      assert [] + rest == rest;
    } else {
      var below := ForestBytes(ts[1..]) + rest;
      assert s == TreeBytes(ts[0]) + below;
      TreeRead(m, s, ts[0], ns[0], below);
      ForestRead(ReadTree(m, s).meta, below, ts[1..], ns[1..], rest);
      assert [ns[0]] + ns[1..] == ns;
    }
  }

  /**
   A file is read as the tree `root`, with `rest` left over, exactly if it is the bytes of a tree text
   that makes `root`, then `rest`, and the tree has at most 64 levels and 200000 nodes.
   */
  lemma {:induction false} FileIff(file: bytes, root: Node, rest: bytes)
    ensures (exists meta :: ReadTree(START, file) == Read(root, rest, meta))
       <==> (exists t :: IsTree(file, t, root, rest)) && Height(root) <= 64 && Size(root) <= 200_000
  {
    hide ReadTree, IsTree, Height, Size;
    if meta :| ReadTree(START, file) == Read(root, rest, meta) {
      var t := TreeParsed(START, file);
      ReadTreeAccounts(START, file);
    }
    if t :| IsTree(file, t, root, rest) {
      if Height(root) <= 64 && Size(root) <= 200_000 {
        TreeRead(START, file, t, root, rest);
      }
    }
  }

  /** The file begins with the bytes of a tree text that makes `root`. */
  ghost predicate Holds(file: bytes, root: Node) {
    exists t, rest :: IsTree(file, t, root, rest)
  }

  lemma {:induction false} HoldsIff(file: bytes, root: Node)
    ensures (var r := ReadTree(START, file); r.Read? && r.value == root) <==> Holds(file, root) && Height(root) <= 64 && Size(root) <= 200_000
  {
    hide ReadTree, IsTree, Height, Size;
    var r := ReadTree(START, file);
    if r.Read? && r.value == root {
      FileIff(file, root, r.rest);
    }
    if t, rest :| IsTree(file, t, root, rest) {
      FileIff(file, root, rest);
    }
  }

  // ----- what is written -----

  /** The texts written for a node; its values stand behind their lengths in `allowed`. */
  ghost predicate IsTextOf(t: NodeText, n: Node) {
    && t.name == n.name && t.nodeType == n.nodeType && t.uuid == n.uuid && t.description == n.description
    && t.dataType == n.dataType && t.min == n.min && t.max == n.max && t.unit == n.unit
    && IsAllowedText(t.allowed, n.allowedDef) && t.defaultValue == n.defaultValue && t.access == AccessText(n.validate)
  }

  ghost predicate IsTreeTextOf(t: TreeText, n: Node)
    decreases t
  {
    && IsTextOf(t.node, n) && |t.children| == |n.children|
    && forall i :: 0 <= i < |t.children| ==> IsTreeTextOf(t.children[i], n.children[i])
  }

  lemma {:induction false} FieldsWritten(n: Node, rest: bytes) returns (t: NodeText)
    requires FieldsFit(n)
    ensures Fitting(t) && IsTextOf(t, n) && EncodeFields(n, rest) == NodeBytes(t, |n.children|) + rest
  {
    hide Ascii, IsAllowedText, AllowedText, AccessText, ValidateToString, ParseAllowed;
    t := NodeText(n.name, n.nodeType, n.uuid, n.description, n.dataType, n.min, n.max, n.unit,
                  AllowedText(n.allowedDef), n.defaultValue, AccessText(n.validate));
    LevelText(n.validate);
    AllowedRoundTrip(n.allowedDef);
    AllowedGrammar(t.allowed, n.allowedDef);
    ValuesWritten(n, t, rest);
    TypesWritten(n, t, EncodeValues(n, rest));
    NamesWritten(n, t, EncodeTyping(n, EncodeValues(n, rest)));
    Parts(NamePart(t), TypePart(t), ValuePart(t, |n.children|), rest);
  }

  lemma PutIs(x: bytes, rest: bytes)
    ensures |x| < 256 ==> Put8(x, rest) == Short(x) + rest
    ensures |x| < 65536 ==> Put16(x, rest) == Long(x) + rest
  {
  }

  lemma {:induction false} NamesWritten(n: Node, t: NodeText, rest: bytes)
    requires Fitting(t) && t.name == n.name && t.nodeType == n.nodeType && t.uuid == n.uuid && t.description == n.description
    ensures EncodeNames(n, rest) == NamePart(t) + rest
  {
    hide Put8, Put16, Short, Long;
    var s3 := Put16(n.description, rest);
    var s2 := Put8(n.uuid, s3);
    PutIs(n.description, rest);
    PutIs(n.uuid, s3);
    PutIs(n.nodeType, s2);
    PutIs(n.name, Put8(n.nodeType, s2));
    Parts(Short(n.name), Short(n.nodeType), Short(n.uuid), s3);
    assert Short(n.name) + Short(n.nodeType) + Short(n.uuid) + (Long(n.description) + rest) == NamePart(t) + rest;
  }

  lemma {:induction false} TypesWritten(n: Node, t: NodeText, rest: bytes)
    requires Fitting(t) && t.dataType == n.dataType && t.min == n.min && t.max == n.max && t.unit == n.unit
    ensures EncodeTyping(n, rest) == TypePart(t) + rest
  {
    hide Put8, Short;
    var s3 := Put8(n.unit, rest);
    var s2 := Put8(n.max, s3);
    PutIs(n.unit, rest);
    PutIs(n.max, s3);
    PutIs(n.min, s2);
    PutIs(n.dataType, Put8(n.min, s2));
    Parts(Short(n.dataType), Short(n.min), Short(n.max), s3);
    assert Short(n.dataType) + Short(n.min) + Short(n.max) + (Short(n.unit) + rest) == TypePart(t) + rest;
  }

  lemma {:induction false} ValuesWritten(n: Node, t: NodeText, rest: bytes)
    requires Fitting(t) && t.allowed == AllowedText(n.allowedDef) && t.defaultValue == n.defaultValue
    requires t.access == ValidateToString(n.validate) && |n.children| < 256
    ensures EncodeValues(n, rest) == ValuePart(t, |n.children|) + rest
  {
    hide Put8, Put16, Short, Long, AllowedText, ValidateToString;
    var s3 := [|n.children|] + rest;
    var s2 := Put8(t.access, s3);
    PutIs(t.access, s3);
    PutIs(t.defaultValue, s2);
    PutIs(t.allowed, Put8(t.defaultValue, s2));
    Parts(Long(t.allowed), Short(t.defaultValue), Short(t.access), s3);
    assert Long(t.allowed) + Short(t.defaultValue) + Short(t.access) + ([|n.children|] + rest) == ValuePart(t, |n.children|) + rest;
  }

  /** A tree whose fields fit is written as the bytes of its texts. */
  lemma {:induction false} TreeWritten(n: Node, rest: bytes) returns (t: TreeText)
    requires Writable(n)
    ensures FittingTree(t) && IsTreeTextOf(t, n) && EncodeTree(n, rest) == TreeBytes(t) + rest
    decreases n, 0
  {
    hide FieldsFit, EncodeFields, NodeBytes, IsTextOf, Fitting;
    assert WrittenChildren(n) == n.children && |n.children| < 256 by { Few(n); }
    var node := FieldsWritten(n, EncodeForest(n.children, rest));
    var children := ForestWritten(n.children, rest);
    t := TreeText(node, children);
    Parts(NodeBytes(node, |n.children|), ForestBytes(children), rest, []);
    assert NodeBytes(node, |n.children|) + (ForestBytes(children) + rest) == TreeBytes(t) + rest;
  }

  lemma Few(n: Node)
    requires FieldsFit(n)
    ensures WrittenChildren(n) == n.children && |n.children| < 256
  {
  }

  lemma {:induction false} ForestWritten(ns: seq<Node>, rest: bytes) returns (ts: seq<TreeText>)
    requires forall n :: n in ns ==> Writable(n)
    ensures |ts| == |ns| && (forall t :: t in ts ==> FittingTree(t)) && EncodeForest(ns, rest) == ForestBytes(ts) + rest
    ensures forall i :: 0 <= i < |ts| ==> IsTreeTextOf(ts[i], ns[i])
    decreases ns, 1
  {
    hide Writable, EncodeTree, IsTreeTextOf, FittingTree, TreeBytes;
    if ns == [] {
      ts := [];
      assert [] + rest == rest;
    } else {
      var first := TreeWritten(ns[0], EncodeForest(ns[1..], rest));
      var others := ForestWritten(ns[1..], rest);
      ts := [first] + others;
      assert ts[1..] == others;
      assert TreeBytes(first) + (ForestBytes(others) + rest) == ForestBytes(ts) + rest;
    }
  }
}
