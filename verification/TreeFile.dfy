/** The writer and the reader of binary VSS tree files, as they run: over a stream, field by field. */
module TreeFile {
  import opened ByteStrings
  import opened VssTree
  import opened TreeFormat
  import opened TreeTheorems
  import opened TreeGrammar

  // ----- writing -----

  lemma NoForest()
    ensures EncodeForest([], []) == []
  {
  }

  /** The file being written. Ghost `rest` stands for what will be written next. */
  class TreeWriter {
    var written: bytes

    constructor ()
      ensures written == []
    {
      written := [];
    }

    method WriteString8(x: bytes, ghost rest: bytes)
      modifies this
      ensures written + rest == old(written) + Put8(x, rest)
    {
      written := written + [|x| % 256];
      if |x| > 0 {
        written := written + x;
      }
    }

    method WriteUint16(n: nat)
      modifies this
      ensures written == old(written) + [n % 256, n / 256 % 256]
    {
      written := written + [n % 256, n / 256 % 256];
    }

    method WriteAllowedElements(defs: seq<bytes>)
      modifies this
      ensures written == old(written) + AllowedText(defs)
    {
      hide IntToHex;
      ghost var start := written;
      var i := 0;
      assert defs[0..] == defs;
      while i < |defs|
        invariant 0 <= i <= |defs|
        invariant written + AllowedText(defs[i..]) == start + AllowedText(defs)
      {
        assert defs[i..][1..] == defs[i + 1..];
        written := written + IntToHex(|defs[i]|);
        written := written + defs[i];
        i := i + 1;
      }
      assert written + AllowedText(defs[i..]) == written;
    }

    method WriteAllowed(defs: seq<bytes>, ghost rest: bytes)
      modifies this
      ensures written + rest == old(written) + Put16(AllowedText(defs), rest)
    {
      hide AllowedText;
      var strLen := AllowedStrLen(defs);
      WriteUint16(strLen);
      WriteAllowedElements(defs);
    }

    /** Writes the fields of one node. */
    method WriteNode(n: Node)
      modifies this
      ensures written == old(written) + EncodeFields(n, [])
    {
      hide Put8, Put16, ValidateToString, AllowedText;
      ghost var s11: bytes := [|n.children| % 256];
      assert [|n.children| % 256] + [] == s11;
      ghost var s10 := Put8(ValidateToString(n.validate), s11);
      ghost var s9 := Put8(n.defaultValue, s10);
      ghost var s8 := Put16(AllowedText(n.allowedDef), s9);
      ghost var s7 := Put8(n.unit, s8);
      ghost var s6 := Put8(n.max, s7);
      ghost var s5 := Put8(n.min, s6);
      ghost var s4 := Put8(n.dataType, s5);
      ghost var s3 := Put16(n.description, s4);
      ghost var s2 := Put8(n.uuid, s3);
      ghost var s1 := Put8(n.nodeType, s2);
      assert EncodeFields(n, []) == Put8(n.name, s1);
      WriteString8(n.name, s1);
      WriteString8(n.nodeType, s2);
      WriteString8(n.uuid, s3);
      WriteDescription(n.description, s4);
      WriteString8(n.dataType, s5);
      WriteString8(n.min, s6);
      WriteString8(n.max, s7);
      WriteString8(n.unit, s8);
      WriteAllowed(n.allowedDef, s9);
      WriteString8(n.defaultValue, s10);
      WriteString8(ValidateToString(n.validate), s11);
      written := written + [|n.children| % 256];
    }

    method WriteDescription(x: bytes, ghost rest: bytes)
      modifies this
      ensures written + rest == old(written) + Put16(x, rest)
    {
      WriteUint16(|x|);
      written := written + x;
    }

    /** Writes a tree, depth first. */
    method TraverseAndWriteNode(t: Node)
      modifies this
      ensures written == old(written) + EncodeTree(t, [])
      decreases t
    {
      hide EncodeFields, EncodeForest;
      WriteNode(t);
      var kids := WrittenChildren(t);
      ghost var start := written;
      var childNo := 0;
      NoForest();
      while childNo < |kids|
        invariant 0 <= childNo <= |kids|
        invariant written == start + EncodeForest(kids[..childNo], [])
      {
        EncodeForestSnoc(kids, childNo);
        assert kids[childNo] in t.children;
        TraverseAndWriteNode(kids[childNo]);
        childNo := childNo + 1;
      }
      assert kids[..childNo] == kids;
      EncodeFieldsAppend(t, [], EncodeForest(kids, []));
      assert [] + EncodeForest(kids, []) == EncodeForest(kids, []);
    }
  }

  lemma {:induction false} EncodeForestConcat(ts: seq<Node>, us: seq<Node>, rest: bytes)
    ensures EncodeForest(ts + us, rest) == EncodeForest(ts, EncodeForest(us, rest))
    decreases |ts|
  {
    if ts == [] {
      assert ts + us == us;
    } else {
      assert (ts + us)[1..] == ts[1..] + us;
      EncodeForestConcat(ts[1..], us, rest);
    }
  }

  lemma {:induction false} EncodeForestSnoc(ts: seq<Node>, i: nat)
    requires i < |ts|
    ensures EncodeForest(ts[..i + 1], []) == EncodeForest(ts[..i], []) + EncodeTree(ts[i], [])
  {
    hide EncodeTree;
    assert ts[..i + 1] == ts[..i] + [ts[i]];
    EncodeForestConcat(ts[..i], [ts[i]], []);
    assert EncodeForest([ts[i]], []) == EncodeTree(ts[i], []);
    EncodeForestAppend(ts[..i], [], EncodeTree(ts[i], []));
    assert [] + EncodeTree(ts[i], []) == EncodeTree(ts[i], []);
  }

  /** The length declared for the allowed values is the length of what is then written. */
  method AllowedStrLen(defs: seq<bytes>) returns (strLen: nat)
    ensures strLen == |AllowedText(defs)|
  {
    strLen := 0;
    var i := 0;
    assert defs[0..] == defs;
    while i < |defs|
      invariant 0 <= i <= |defs|
      invariant strLen + |AllowedText(defs[i..])| == |AllowedText(defs)|
    {
      assert defs[i..][1..] == defs[i + 1..];
      strLen := strLen + |defs[i]| + 2;
      i := i + 1;
    }
  }

  // ----- reading the allowed values -----

  function CountAllowed(text: bytes): (r: Option<nat>)
    ensures r == match ParseAllowed(text) case None => None case Some(defs) => Some(|defs|)
    decreases |text|
  {
    if text == [] then Some(0)
    else
      var next :- NextAllowed(text);
      var n :- CountAllowed(next.1);
      Some(1 + n)
  }

  method CountAllowedElements(text: bytes) returns (r: Option<nat>)
    ensures r == CountAllowed(text)
  {
    hide ParseAllowed, DecodeAllowedLen;
    var n, index := 0, 0;
    assert text[0..] == text;
    while index < |text|
      invariant 0 <= index <= |text|
      invariant CountAllowed(text)
             == match CountAllowed(text[index..]) case None => None case Some(k) => Some(n + k)
    {
      assert |text[index..]| == |text| - index;
      if index + 2 > |text| {
        return None;
      }
      assert text[index..][0] == text[index] && text[index..][1] == text[index + 1];
      var allowedLen := DecodeAllowedLen(text[index], text[index + 1]);
      if allowedLen.None? {
        return None;
      }
      var next := index + allowedLen.value + 2;
      if next > |text| {
        return None;
      }
      assert text[index..][2 + allowedLen.value..] == text[next..];
      index := next;
      n := n + 1;
    }
    return Some(n);
  }

  /** The k-th element, found by skipping the ones before it. */
  function NthAllowed(text: bytes, k: nat): Option<bytes>
    decreases k
  {
    var next :- NextAllowed(text);
    if k == 0 then Some(next.0) else NthAllowed(next.1, k - 1)
  }

  lemma {:induction false} NthOfParsed(text: bytes, k: nat)
    requires ParseAllowed(text).Some? && k < |ParseAllowed(text).value|
    ensures NthAllowed(text, k) == Some(ParseAllowed(text).value[k])
    decreases k
  {
    if k > 0 {
      NthOfParsed(NextAllowed(text).value.1, k - 1);
    }
  }

  method ExtractAllowedElement(text: bytes, elemIndex: nat) returns (r: Option<bytes>)
    ensures r == NthAllowed(text, elemIndex)
  {
    hide DecodeAllowedLen;
    var bufIndex, alloweds := 0, 0;
    assert text[0..] == text;
    while alloweds <= elemIndex
      invariant 0 <= bufIndex <= |text| && 0 <= alloweds <= elemIndex
      invariant NthAllowed(text, elemIndex) == NthAllowed(text[bufIndex..], elemIndex - alloweds)
    {
      if bufIndex + 2 > |text| {
        return None;
      }
      assert text[bufIndex..][0] == text[bufIndex] && text[bufIndex..][1] == text[bufIndex + 1];
      var allowedLen := DecodeAllowedLen(text[bufIndex], text[bufIndex + 1]);
      if allowedLen.None? {
        return None;
      }
      var allowedStart := bufIndex + 2;
      var allowedEnd := allowedStart + allowedLen.value;
      if allowedEnd > |text| {
        return None;
      }
      assert text[bufIndex..][2..2 + allowedLen.value] == text[allowedStart..allowedEnd];
      assert text[bufIndex..][2 + allowedLen.value..] == text[allowedEnd..];
      if alloweds == elemIndex {
        return Some(text[allowedStart..allowedEnd]);
      }
      bufIndex := allowedEnd;
      alloweds := alloweds + 1;
    }
    return None;
  }

  /** Counts, then extracts as many elements as the one-byte count says. */
  method ReadAllowedDef(text: bytes) returns (r: Option<seq<bytes>>)
    ensures r == match ParseAllowed(text) case None => None case Some(defs) => Some(KeepAllowed(defs))
  {
    hide NthAllowed, NextAllowed;
    var count := CountAllowedElements(text);
    if count.None? {
      return None;
    }
    var allowed := count.value % 256;
    var defs: seq<bytes> := [];
    var i := 0;
    while i < allowed
      invariant 0 <= i <= allowed && defs == ParseAllowed(text).value[..i]
    {
      NthOfParsed(text, i);
      var elem := ExtractAllowedElement(text, i);
      if elem.None? {
        assert false;
      }
      defs := defs + [elem.value];
      i := i + 1;
    }
    return Some(defs);
  }

  // ----- reading -----

  /** Children read so far, joined with the outcome of reading the others. */
  function Glue(done: seq<Node>, r: ReadResult<seq<Node>>): ReadResult<seq<Node>> {
    match r
    case Rejected(m) => Rejected(m)
    case Read(ts, rest, m) => Read(done + ts, rest, m)
  }

  lemma Get8Slices(s: bytes)
    ensures Get8(s) ==
      if |s| < 1 || |s[1..]| < s[0] then None else Some((s[1..][..s[0]], s[1..][s[0]..]))
  {
    if |s| >= 1 && |s[1..]| >= s[0] {
      var n: int := s[0];
      assert s[1..][..n] == s[1..1 + n];
      assert s[1..][n..] == s[1 + n..];
    }
  }

  lemma Get16Slices(s: bytes)
    ensures Get16(s) ==
      if |s| < 2 || |s[2..]| < Uint16(s[0], s[1]) then None
      else Some((s[2..][..Uint16(s[0], s[1])], s[2..][Uint16(s[0], s[1])..]))
  {
    if |s| >= 2 && |s[2..]| >= Uint16(s[0], s[1]) {
      var n := Uint16(s[0], s[1]);
      assert s[2..][..n] == s[2..2 + n];
      assert s[2..][n..] == s[2 + n..];
    }
  }

  class TreeReader {
    var unread: bytes
    var currentDepth: int
    var maxTreeDepth: int
    var totalNodes: int

    constructor (file: bytes)
      ensures unread == file && Counters() == START
    {
      unread := file;
      currentDepth, maxTreeDepth, totalNodes := 0, 0, 0;
    }

    ghost function Counters(): Meta
      reads this
    {
      Meta(currentDepth, maxTreeDepth, totalNodes)
    }

    method UpdateReadMetadata(increment: bool)
      modifies this`currentDepth, this`maxTreeDepth, this`totalNodes
      ensures Counters() == if increment then old(Counters()).Enter() else old(Counters()).Leave()
    {
      if increment {
        totalNodes := totalNodes + 1;
        currentDepth := currentDepth + 1;
        if currentDepth > maxTreeDepth {
          maxTreeDepth := maxTreeDepth + 1;
        }
      } else {
        currentDepth := currentDepth - 1;
      }
    }

    /** All the bytes asked for, or a failure that has used up the file. */
    method ReadBytes(n: nat) returns (r: Option<bytes>)
      modifies this`unread
      ensures if n <= |old(unread)| then r == Some(old(unread)[..n]) && unread == old(unread)[n..]
              else r == None && unread == []
    {
      if n > |unread| {
        unread := [];
        return None;
      }
      r := Some(unread[..n]);
      unread := unread[n..];
    }

    method ReadLenPrefixedString8() returns (r: Option<bytes>)
      modifies this`unread
      ensures match Get8(old(unread)) case None => r == None case Some(p) => r == Some(p.0) && unread == p.1
    {
      hide Get8;
      ghost var s := unread;
      var b := ReadBytes(1);
      if b.None? {
        return None;
      }
      var n: int := b.value[0];
      Get8Slices(s);
      r := ReadBytes(n);
    }

    method ReadLenPrefixedString16() returns (r: Option<bytes>)
      modifies this`unread
      ensures match Get16(old(unread)) case None => r == None case Some(p) => r == Some(p.0) && unread == p.1
    {
      hide Get16;
      ghost var s := unread;
      var b := ReadBytes(2);
      if b.None? {
        return None;
      }
      var n := Uint16(b.value[0], b.value[1]);
      Get16Slices(s);
      r := ReadBytes(n);
    }

    method ReadNames() returns (r: Option<Names>)
      modifies this`unread
      ensures match ParseNames(old(unread)) case None => r == None case Some(p) => r == Some(p.0) && unread == p.1
    {
      hide Get8, Get16;
      var name := ReadLenPrefixedString8();
      if name.None? { return None; }
      var nodeType := ReadLenPrefixedString8();
      if nodeType.None? { return None; }
      var uuid := ReadLenPrefixedString8();
      if uuid.None? { return None; }
      var description := ReadLenPrefixedString16();
      if description.None? { return None; }
      return Some(Names(name.value, nodeType.value, uuid.value, description.value));
    }

    method ReadTyping() returns (r: Option<Typing>)
      modifies this`unread
      ensures match ParseTyping(old(unread)) case None => r == None case Some(p) => r == Some(p.0) && unread == p.1
    {
      hide Get8, Get16;
      var dataType := ReadLenPrefixedString8();
      if dataType.None? { return None; }
      var min := ReadLenPrefixedString8();
      if min.None? { return None; }
      var max := ReadLenPrefixedString8();
      if max.None? { return None; }
      var unit := ReadLenPrefixedString8();
      if unit.None? { return None; }
      return Some(Typing(dataType.value, min.value, max.value, unit.value));
    }

    method ReadValues() returns (r: Option<Values>)
      modifies this`unread
      ensures match ParseValues(old(unread)) case None => r == None case Some(p) => r == Some(p.0) && unread == p.1
    {
      hide Get8, Get16, ParseAllowed;
      var allowed := ReadLenPrefixedString16();
      if allowed.None? { return None; }
      var defs := ReadAllowedDef(allowed.value);
      if defs.None? { return None; }
      var defaultValue := ReadLenPrefixedString8();
      if defaultValue.None? { return None; }
      var validate := ReadLenPrefixedString8();
      if validate.None? { return None; }
      var count := ReadBytes(1);
      if count.None? { return None; }
      return Some(Values(defs.value, defaultValue.value, validate.value, count.value[0]));
    }

    /** Reads the fields of one node and its number of children. */
    method PopulateNode() returns (r: Option<(Node, byte)>)
      modifies this`unread
      ensures match ParseFields(old(unread))
              case None => r == None
              case Some(h) => r == Some((h.node, h.count)) && unread == h.rest
    {
      hide ParseNames, ParseTyping, ParseValues;
      var names := ReadNames();
      if names.None? { return None; }
      var typing := ReadTyping();
      if typing.None? { return None; }
      var values := ReadValues();
      if values.None? { return None; }
      return Some((MakeNode(names.value, typing.value, values.value), values.value.count));
    }

    /** Reads a tree, depth first; the depth counter is restored on every way out. */
    method TraverseAndReadNode() returns (r: Option<Node>)
      modifies this
      ensures match ReadTree(old(Counters()), old(unread))
              case Rejected(m) => r == None && Counters() == m
              case Read(t, rest, m) => r == Some(t) && unread == rest && Counters() == m
      decreases |unread|
    {
      hide ParseFields;
      UpdateReadMetadata(true);
      if currentDepth > MAX_TREE_DEPTH || totalNodes > MAX_TREE_NODES {
        UpdateReadMetadata(false);
        return None;
      }
      var header := PopulateNode();
      if header.None? {
        UpdateReadMetadata(false);
        return None;
      }
      var (thisNode, count) := header.value;
      ghost var m1, s1 := Counters(), unread;
      var kids: seq<Node> := [];
      var childNo := 0;
      GlueNothing(ReadForest(m1, count, s1));
      while childNo < count
        invariant 0 <= childNo <= count && |unread| <= |s1|
        invariant ReadForest(m1, count, s1) == Glue(kids, ReadForest(Counters(), count - childNo, unread))
      {
        ghost var m2, s2 := Counters(), unread;
        var child := TraverseAndReadNode();
        if child.None? {
          UpdateReadMetadata(false);
          return None;
        }
        GlueNext(kids, m2, count - childNo, s2);
        kids := kids + [child.value];
        childNo := childNo + 1;
      }
      assert kids + [] == kids;
      UpdateReadMetadata(false);
      return Some(thisNode.(children := kids));
    }
  }

  lemma GlueNothing(r: ReadResult<seq<Node>>)
    ensures Glue([], r) == r
  {
    if r.Read? {
      assert [] + r.value == r.value;
    }
  }

  lemma GlueNext(done: seq<Node>, m: Meta, count: nat, s: bytes)
    requires count > 0 && ReadTree(m, s).Read?
    ensures var r := ReadTree(m, s);
            Glue(done, ReadForest(m, count, s)) == Glue(done + [r.value], ReadForest(r.meta, count - 1, r.rest))
  {
    hide ReadTree;
    var r := ReadTree(m, s);
    var f := ReadForest(r.meta, count - 1, r.rest);
    if f.Read? {
      assert done + ([r.value] + f.value) == done + [r.value] + f.value;
    }
  }

  /** Reads a file; no tree on any error. */
  method VssReadTree(file: bytes) returns (root: Option<Node>)
    ensures root == match ReadTree(START, file) case Rejected(_) => None case Read(t, _, _) => Some(t)
    ensures root.Some? ==> Readable(root.value) && Height(root.value) <= MAX_TREE_DEPTH && Size(root.value) <= MAX_TREE_NODES
    ensures forall n :: root == Some(n) <==> Holds(file, n) && Height(n) <= 64 && Size(n) <= 200_000
  {
    hide ReadTree, Holds, Readable, Height, Size;
    ReadTreeReadable(START, file);
    ReadTreeAccounts(START, file);
    forall n
      ensures (var r := ReadTree(START, file); r.Read? && r.value == n) <==> Holds(file, n) && Height(n) <= 64 && Size(n) <= 200_000
    {
      HoldsIff(file, n);
    }
    var reader := new TreeReader(file);
    root := reader.TraverseAndReadNode();
  }

  /** Writes a tree over an older file, which is not cut off; the tree is read back exactly if it is well formed. */
  method VssWriteTree(root: Node, oldFile: bytes) returns (file: bytes)
    ensures file == EncodeTree(root, []) + Leftover(oldFile, EncodeTree(root, []))
    ensures var r := ReadTree(START, file); r.Read? && r.value == root <==> WellFormed(root)
  {
    hide ReadTree, EncodeTree, WellFormed;
    var writer := new TreeWriter();
    writer.TraverseAndWriteNode(root);
    var written := writer.written;
    assert [] + written == written;
    file := written + Leftover(oldFile, written);
    EncodeTreeAppend(root, [], Leftover(oldFile, written));
    assert [] + Leftover(oldFile, written) == Leftover(oldFile, written);
    RoundTrip(root, Leftover(oldFile, written));
  }
}
