/** What holds of every tree that is written and of every byte string that is read. */
module TreeTheorems {
  import opened ByteStrings
  import opened VssTree
  import opened TreeFormat

  // ----- trees the format can hold -----

  /** A node the reader can produce. */
  ghost predicate ReadableNode(n: Node) {
    && |n.name| <= 255 && |n.nodeType| <= 255 && |n.uuid| <= 255 && |n.description| <= 65535
    && |n.dataType| <= 255 && |n.min| <= 255 && |n.max| <= 255 && |n.unit| <= 255
    && |n.defaultValue| <= 255 && |n.children| <= 255 && |n.allowedDef| <= 255
    && (forall i :: 0 <= i < |n.allowedDef| ==> |n.allowedDef[i]| <= 255)
    && (n.nodeType == BRANCH ==> n.dataType == [])
    && n.validate in {0, 1, 2, 10, 11, 12}
  }

  ghost predicate Readable(t: Node) {
    ReadableNode(t) && forall c :: c in t.children ==> Readable(c)
  }

  /** A node that survives being written and read: in addition, consent comes without a write right. */
  ghost predicate KeptNodes(t: Node) {
    ReadableNode(t) && t.validate in {0, 1, 2, 10} && forall c :: c in t.children ==> KeptNodes(c)
  }

  ghost predicate WellFormed(t: Node) {
    KeptNodes(t) && Height(t) <= MAX_TREE_DEPTH && Size(t) <= MAX_TREE_NODES
  }

  /** Every length in the tree fits its prefix. */
  ghost predicate Writable(t: Node) {
    FieldsFit(t) && forall c :: c in t.children ==> Writable(c)
  }

  /** What the format keeps of a tree. */
  function Stored(t: Node): Node
    decreases t
  {
    StoredFields(t).(children := StoredForest(t.children))
  }

  function StoredForest(ts: seq<Node>): (r: seq<Node>)
    ensures |r| == |ts|
    decreases ts
  {
    if ts == [] then [] else [Stored(ts[0])] + StoredForest(ts[1..])
  }

  /** The tree with the write right dropped wherever consent is required. */
  function ConsentOnly(t: Node): Node
    decreases t
  {
    t.(validate := if t.validate in {11, 12} then 10 else t.validate,
       children := ConsentOnlyForest(t.children))
  }

  function ConsentOnlyForest(ts: seq<Node>): seq<Node>
    decreases ts
  {
    if ts == [] then [] else [ConsentOnly(ts[0])] + ConsentOnlyForest(ts[1..])
  }

  // ----- the reader's books -----

  /** Size and height are exactly what the counters count, within the limits; the depth returns. */
  lemma {:induction false} ReadTreeAccounts(m: Meta, s: bytes)
    requires m.currentDepth <= m.maxTreeDepth
    ensures var r := ReadTree(m, s);
            && r.meta.currentDepth == m.currentDepth <= r.meta.maxTreeDepth
            && (r.Read? ==>
                  && r.meta.totalNodes == m.totalNodes + Size(r.value) <= MAX_TREE_NODES
                  && r.meta.maxTreeDepth == Max(m.maxTreeDepth, m.currentDepth + Height(r.value))
                  && m.currentDepth + Height(r.value) <= MAX_TREE_DEPTH
                  && |r.rest| + 14 * Size(r.value) <= |s|)
    decreases |s|, 0
  {
    hide ParseFields;
    var m1 := m.Enter();
    if m1.WithinLimits() && ParseFields(s).Some? {
      var h := ParseFields(s).value;
      ReadForestAccounts(m1, h.count, h.rest);
    }
  }

  lemma {:induction false} ReadForestAccounts(m: Meta, count: nat, s: bytes)
    requires m.currentDepth <= m.maxTreeDepth && m.WithinLimits()
    ensures var r := ReadForest(m, count, s);
            && r.meta.currentDepth == m.currentDepth <= r.meta.maxTreeDepth
            && (r.Read? ==>
                  && r.meta.totalNodes == m.totalNodes + ForestSize(r.value) <= MAX_TREE_NODES
                  && r.meta.maxTreeDepth == Max(m.maxTreeDepth, m.currentDepth + ForestHeight(r.value))
                  && m.currentDepth + ForestHeight(r.value) <= MAX_TREE_DEPTH
                  && |r.rest| + 14 * ForestSize(r.value) <= |s|)
    decreases |s|, count + 1
  {
    hide ParseFields;
    if count > 0 {
      ReadTreeAccounts(m, s);
      var r := ReadTree(m, s);
      if r.Read? {
        ReadForestAccounts(r.meta, count - 1, r.rest);
        var f := ReadForest(r.meta, count - 1, r.rest);
        if f.Read? {
          assert ([r.value] + f.value)[1..] == f.value;
        }
      }
    }
  }

  lemma {:induction false} ParsedNodeReadable(s: bytes)
    requires ParseFields(s).Some?
    ensures ReadableNode(ParseFields(s).value.node)
  {
    hide ParseNames, ParseTyping, ParseValues;
    ValidateRange(ParseValues(ParseTyping(ParseNames(s).value.1).value.1).value.0.validate);
  }

  /** Everything the reader accepts is in the writer's domain. */
  lemma {:induction false} ReadTreeReadable(m: Meta, s: bytes)
    ensures ReadTree(m, s).Read? ==> Readable(ReadTree(m, s).value)
    decreases |s|, 0
  {
    hide ParseFields;
    var r := ReadTree(m, s);
    if r.Read? {
      var h := ParseFields(s).value;
      ParsedNodeReadable(s);
      ReadForestReadable(m.Enter(), h.count, h.rest);
    }
  }

  lemma {:induction false} ReadForestReadable(m: Meta, count: nat, s: bytes)
    ensures ReadForest(m, count, s).Read? ==> forall c :: c in ReadForest(m, count, s).value ==> Readable(c)
    decreases |s|, count + 1
  {
    hide ParseFields;
    var r := ReadForest(m, count, s);
    if r.Read? && count > 0 {
      ReadTreeReadable(m, s);
      var t := ReadTree(m, s);
      ReadForestReadable(t.meta, count - 1, t.rest);
    }
  }

  // ----- writing, then reading -----

  lemma {:induction false} WriteThenRead(t: Node, m: Meta, rest: bytes)
    requires Writable(t) && m.currentDepth <= m.maxTreeDepth
    requires m.currentDepth + Height(t) <= MAX_TREE_DEPTH && m.totalNodes + Size(t) <= MAX_TREE_NODES
    ensures ReadTree(m, EncodeTree(t, rest))
         == Read(Stored(t), rest, Meta(m.currentDepth, Max(m.maxTreeDepth, m.currentDepth + Height(t)), m.totalNodes + Size(t)))
    decreases t
  {
    hide ParseFields, EncodeFields, StoredFields, AllowedFits;
    FieldsRoundTrip(t, EncodeForest(t.children, rest));
    WriteThenReadForest(t.children, m.Enter(), rest);
  }

  lemma {:induction false} WriteThenReadForest(ts: seq<Node>, m: Meta, rest: bytes)
    requires forall c :: c in ts ==> Writable(c)
    requires m.currentDepth <= m.maxTreeDepth
    requires m.currentDepth + ForestHeight(ts) <= MAX_TREE_DEPTH && m.totalNodes + ForestSize(ts) <= MAX_TREE_NODES
    ensures ReadForest(m, |ts|, EncodeForest(ts, rest))
         == Read(StoredForest(ts), rest, Meta(m.currentDepth, Max(m.maxTreeDepth, m.currentDepth + ForestHeight(ts)), m.totalNodes + ForestSize(ts)))
    decreases ts
  {
    hide ParseFields, EncodeFields, StoredFields, FieldsFit;
    if ts != [] {
      var s1 := EncodeForest(ts[1..], rest);
      WriteThenRead(ts[0], m, s1);
      WriteThenReadForest(ts[1..], ReadTree(m, EncodeTree(ts[0], s1)).meta, rest);
    }
  }

  lemma {:induction false} ReadableIsWritable(t: Node)
    requires Readable(t)
    ensures Writable(t)
  {
    AllowedLengthBound(t.allowedDef);
    forall c | c in t.children
      ensures Writable(c)
    {
      ReadableIsWritable(c);
    }
  }

  lemma {:induction false} StoredReadable(t: Node)
    requires Readable(t)
    ensures Stored(t) == ConsentOnly(t)
    ensures Stored(Stored(t)) == Stored(t)
    ensures Stored(t) == t <==> KeptNodes(t)
    decreases t
  {
    hide StoredForest, ConsentOnlyForest, KeepAllowed;
    StoredForestReadable(t.children);
    KeepAllowedShort(t.allowedDef);
    if KeptNodes(t) {
      assert StoredFields(t) == t;
    }
  }

  lemma KeepAllowedShort(defs: seq<bytes>)
    ensures |defs| <= 255 ==> KeepAllowed(defs) == defs
  {
  }

  lemma {:induction false} StoredForestReadable(ts: seq<Node>)
    requires forall c :: c in ts ==> Readable(c)
    ensures StoredForest(ts) == ConsentOnlyForest(ts)
    ensures StoredForest(StoredForest(ts)) == StoredForest(ts)
    ensures StoredForest(ts) == ts <==> forall c :: c in ts ==> KeptNodes(c)
    decreases ts
  {
    if ts != [] {
      StoredReadable(ts[0]);
      StoredForestReadable(ts[1..]);
      assert ts == [ts[0]] + ts[1..];
      assert StoredForest(ts)[0] == Stored(ts[0]) && StoredForest(ts)[1..] == StoredForest(ts[1..]);
    }
  }

  /**
   Reading a written tree gives the tree back exactly when the tree is well formed; then exactly the
   written bytes are consumed, whatever follows them, and the counters are the tree's measures.
   */
  lemma {:induction false} RoundTrip(t: Node, rest: bytes)
    ensures WellFormed(t) ==> ReadTree(START, EncodeTree(t, rest)) == Read(t, rest, Meta(0, Height(t), Size(t)))
    ensures !WellFormed(t) ==> var r := ReadTree(START, EncodeTree(t, rest)); !(r.Read? && r.value == t)
  {
    hide ReadTree, EncodeTree, Stored, Readable, Writable, KeptNodes, Size, Height;
    var s := EncodeTree(t, rest);
    var r := ReadTree(START, s);
    if WellFormed(t) {
      KeptIsReadable(t);
      ReadableIsWritable(t);
      WriteThenRead(t, START, rest);
      StoredReadable(t);
    } else if r.Read? && r.value == t {
      ReadTreeReadable(START, s);
      ReadTreeAccounts(START, s);
      ReadableIsWritable(t);
      WriteThenRead(t, START, rest);
      StoredReadable(t);
      assert false;
    }
  }

  lemma {:induction false} KeptIsReadable(t: Node)
    requires KeptNodes(t)
    ensures Readable(t)
  {
    forall c | c in t.children
      ensures Readable(c)
    {
      KeptIsReadable(c);
    }
  }

  /**
   A tree that was read can be written and read again: one pass only drops the write right where
   consent is required, and a second pass changes nothing.
   */
  lemma {:induction false} SecondGeneration(s: bytes, rest: bytes)
    requires ReadTree(START, s).Read?
    ensures var t := ReadTree(START, s).value;
            var r := ReadTree(START, EncodeTree(t, rest));
            && r.Read? && r.value == ConsentOnly(t) && r.rest == rest
            && WellFormed(r.value)
            && ReadTree(START, EncodeTree(r.value, rest)) == r
  {
    hide ReadTree, EncodeTree, Stored, ConsentOnly, Readable, Writable, Size, Height;
    var t := ReadTree(START, s).value;
    ReadTreeReadable(START, s);
    ReadTreeAccounts(START, s);
    ReadableIsWritable(t);
    WriteThenRead(t, START, rest);
    StoredReadable(t);
    var r := ReadTree(START, EncodeTree(t, rest));
    ReadTreeReadable(START, EncodeTree(t, rest));
    ReadTreeAccounts(START, EncodeTree(t, rest));
    StoredReadable(r.value);
    RoundTrip(r.value, rest);
  }

  // ----- extending and truncating the input -----

  lemma {:induction false} ReadTreeAppend(m: Meta, s: bytes, more: bytes)
    requires ReadTree(m, s).Read?
    ensures ReadTree(m, s + more) == ReadTree(m, s).(rest := ReadTree(m, s).rest + more)
    decreases |s|, 0
  {
    hide ParseFields;
    var h := ParseFields(s).value;
    ParseFieldsAppend(s, more);
    ReadForestAppend(m.Enter(), h.count, h.rest, more);
  }

  lemma {:induction false} ReadForestAppend(m: Meta, count: nat, s: bytes, more: bytes)
    requires ReadForest(m, count, s).Read?
    ensures ReadForest(m, count, s + more) == ReadForest(m, count, s).(rest := ReadForest(m, count, s).rest + more)
    decreases |s|, count + 1
  {
    hide ParseFields;
    if count > 0 {
      var r := ReadTree(m, s);
      ReadTreeAppend(m, s, more);
      ReadForestAppend(r.meta, count - 1, r.rest, more);
    }
  }

  /** Every strict prefix of a well-formed tree's encoding is rejected. */
  lemma {:induction false} TruncationRejected(t: Node, n: nat)
    requires WellFormed(t) && n < |EncodeTree(t, [])|
    ensures ReadTree(START, EncodeTree(t, [])[..n]).Rejected?
  {
    hide ReadTree, EncodeTree, WellFormed;
    var s := EncodeTree(t, []);
    if ReadTree(START, s[..n]).Read? {
      ReadTreeAppend(START, s[..n], s[n..]);
      assert s[..n] + s[n..] == s;
      RoundTrip(t, []);
      assert false;
    }
  }

  /** The encoding does not depend on what follows it. */
  lemma {:induction false} EncodeTreeAppend(t: Node, a: bytes, b: bytes)
    ensures EncodeTree(t, a + b) == EncodeTree(t, a) + b
    decreases t
  {
    EncodeForestAppend(WrittenChildren(t), a, b);
    EncodeFieldsAppend(t, EncodeForest(WrittenChildren(t), a), b);
  }

  lemma {:induction false} EncodeForestAppend(ts: seq<Node>, a: bytes, b: bytes)
    ensures EncodeForest(ts, a + b) == EncodeForest(ts, a) + b
    decreases ts
  {
    if ts != [] {
      EncodeForestAppend(ts[1..], a, b);
      EncodeTreeAppend(ts[0], EncodeForest(ts[1..], a), b);
    }
  }

  /** No encoding is a prefix of another tree's encoding. */
  lemma {:induction false} PrefixFree(t: Node, u: Node, rest: bytes)
    requires WellFormed(t) && WellFormed(u)
    requires EncodeTree(t, []) + rest == EncodeTree(u, [])
    ensures t == u && rest == []
  {
    EncodeTreeAppend(t, [], rest);
    assert [] + rest == rest;
    RoundTrip(t, rest);
    RoundTrip(u, []);
  }
}
