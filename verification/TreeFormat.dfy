/**
 The binary VSS tree format: what the writer produces for a tree and what the reader makes of a
 byte string, as functions. Encoders take the bytes that follow, so that `EncodeTree(t, rest)` is
 the encoding of `t` followed by `rest`.
 */
module TreeFormat {
  import opened ByteStrings
  import opened VssTree

  const MAX_TREE_DEPTH := 64
  const MAX_TREE_NODES := 200_000

  // ----- access rights -----

  // "write-only", "read-write", "consent", "+consent"
  const WRITE_ONLY: bytes := [0x77, 0x72, 0x69, 0x74, 0x65, 0x2D, 0x6F, 0x6E, 0x6C, 0x79]
  const READ_WRITE: bytes := [0x72, 0x65, 0x61, 0x64, 0x2D, 0x77, 0x72, 0x69, 0x74, 0x65]
  const CONSENT: bytes := [0x63, 0x6F, 0x6E, 0x73, 0x65, 0x6E, 0x74]
  const PLUS_CONSENT: bytes := [0x2B] + CONSENT

  function ValidateToInt(s: bytes): (v: byte) {
    (if Contains(s, WRITE_ONLY) then 1 else if Contains(s, READ_WRITE) then 2 else 0)
    + (if Contains(s, CONSENT) then 10 else 0)
  }

  function ValidateToString(v: byte): (s: bytes) {
    if v / 10 == 1 then PLUS_CONSENT
    else if v % 10 == 2 then READ_WRITE
    else if v % 10 == 1 then WRITE_ONLY
    else []
  }

  /** The access right that survives being written and read: consent hides the write right. */
  function StoredValidate(v: byte): byte {
    if v / 10 == 1 then 10 else if v % 10 == 2 then 2 else if v % 10 == 1 then 1 else 0
  }

  lemma {:induction false} ValidateRoundTrip(v: byte)
    ensures |ValidateToString(v)| <= 10
    ensures ValidateToInt(ValidateToString(v)) == StoredValidate(v)
  {
    var s := ValidateToString(v);
    if v / 10 == 1 {
      assert OccursAt(s, CONSENT, 1);
      NotContained(s, WRITE_ONLY);
      NotContained(s, READ_WRITE);
    } else if v % 10 == 2 {
      assert OccursAt(s, READ_WRITE, 0);
      assert s[0] != WRITE_ONLY[0];
      NotContained(s, WRITE_ONLY);
      NotContained(s, CONSENT);
    } else if v % 10 == 1 {
      assert OccursAt(s, WRITE_ONLY, 0);
      NotContained(s, CONSENT);
    } else {
      NotContained(s, WRITE_ONLY);
      NotContained(s, READ_WRITE);
      NotContained(s, CONSENT);
    }
  }

  lemma {:induction false} ValidateRange(s: bytes)
    ensures ValidateToInt(s) in {0, 1, 2, 10, 11, 12}
  {
  }

  // ----- length-prefixed fields -----

  /** A one-byte length, which wraps at 256, and the bytes. */
  function Put8(x: bytes, rest: bytes): bytes {
    [|x| % 256] + x + rest
  }

  /** A two-byte little-endian length, which wraps at 65536, and the bytes. */
  function Put16(x: bytes, rest: bytes): bytes {
    [|x| % 256, |x| / 256 % 256] + x + rest
  }

  function Get8(s: bytes): (r: Option<(bytes, bytes)>)
    ensures r.Some? ==> |r.value.0| < 256 && |s| == 1 + |r.value.0| + |r.value.1|
  {
    if |s| == 0 then None
    else
      var n: int := s[0];
      if |s| < 1 + n then None else Some((s[1..1 + n], s[1 + n..]))
  }

  function Uint16(lo: byte, hi: byte): (n: int)
    ensures 0 <= n < 65536
  {
    lo as int + 256 * (hi as int)
  }

  function Get16(s: bytes): (r: Option<(bytes, bytes)>)
    ensures r.Some? ==> |r.value.0| < 65536 && |s| == 2 + |r.value.0| + |r.value.1|
  {
    if |s| < 2 then None
    else
      var n := Uint16(s[0], s[1]);
      if |s| < 2 + n then None else Some((s[2..2 + n], s[2 + n..]))
  }

  lemma {:induction false} GetPut8(x: bytes, rest: bytes)
    requires |x| < 256
    ensures Get8(Put8(x, rest)) == Some((x, rest))
  {
    assert Put8(x, rest)[1..1 + |x|] == x;
    assert Put8(x, rest)[1 + |x|..] == rest;
  }

  lemma {:induction false} GetPut16(x: bytes, rest: bytes)
    requires |x| < 65536
    ensures Get16(Put16(x, rest)) == Some((x, rest))
  {
    var s := Put16(x, rest);
    assert Uint16(s[0], s[1]) == |x|;
    assert s[2..2 + |x|] == x;
    assert s[2 + |x|..] == rest;
  }

  lemma {:induction false} Put8Append(x: bytes, a: bytes, b: bytes)
    ensures Put8(x, a + b) == Put8(x, a) + b
  {
  }

  lemma {:induction false} Get8Append(s: bytes, more: bytes)
    requires Get8(s).Some?
    ensures Get8(s + more) == Some((Get8(s).value.0, Get8(s).value.1 + more))
  {
    var n: int := s[0];
    assert (s + more)[1..1 + n] == s[1..1 + n];
    assert (s + more)[1 + n..] == s[1 + n..] + more;
  }

  lemma {:induction false} Get16Append(s: bytes, more: bytes)
    requires Get16(s).Some?
    ensures Get16(s + more) == Some((Get16(s).value.0, Get16(s).value.1 + more))
  {
    var n := Uint16(s[0], s[1]);
    assert (s + more)[2..2 + n] == s[2..2 + n];
    assert (s + more)[2 + n..] == s[2 + n..] + more;
  }

  // ----- allowed values: two hex digits of length before each element -----

  function HexDigit(v: int): byte
    requires 0 <= v < 16
  {
    if v < 10 then v + 0x30 else v - 10 + 0x41
  }

  /** A length outside 0..255 is written as "00". */
  function IntToHex(n: int): bytes {
    if n < 0 || n > 255 then [0x30, 0x30] else [HexDigit(n / 16), HexDigit(n % 16)]
  }

  function HexToInt(d: byte): Option<int> {
    if 0x30 <= d <= 0x39 then Some(d - 0x30)
    else if 0x41 <= d <= 0x46 then Some(d - 0x41 + 10)
    else if 0x61 <= d <= 0x66 then Some(d - 0x61 + 10)
    else None
  }

  function DecodeAllowedLen(hi: byte, lo: byte): (r: Option<int>)
    ensures r.Some? ==> 0 <= r.value < 256
  {
    var h :- HexToInt(hi);
    var l :- HexToInt(lo);
    Some(h * 16 + l)
  }

  function AllowedText(defs: seq<bytes>): bytes {
    if defs == [] then [] else IntToHex(|defs[0]|) + defs[0] + AllowedText(defs[1..])
  }

  /** One element and what follows it. */
  function NextAllowed(text: bytes): (r: Option<(bytes, bytes)>)
    ensures r.Some? ==> |r.value.0| < 256 && |text| == 2 + |r.value.0| + |r.value.1|
  {
    if |text| < 2 then None
    else
      var n :- DecodeAllowedLen(text[0], text[1]);
      if |text| < 2 + n then None else Some((text[2..2 + n], text[2 + n..]))
  }

  function ParseAllowed(text: bytes): (r: Option<seq<bytes>>)
    ensures r.Some? ==> forall i :: 0 <= i < |r.value| ==> |r.value[i]| < 256
    decreases |text|
  {
    if text == [] then Some([])
    else
      var next :- NextAllowed(text);
      var defs :- ParseAllowed(next.1);
      Some([next.0] + defs)
  }

  /** The element count is kept in one byte, so only that many elements are kept. */
  function KeepAllowed(defs: seq<bytes>): (kept: seq<bytes>)
    ensures |kept| < 256
  {
    defs[..|defs| % 256]
  }

  ghost predicate AllowedFits(defs: seq<bytes>) {
    && |AllowedText(defs)| < 65536
    && forall i :: 0 <= i < |defs| ==> |defs[i]| < 256
  }

  lemma {:induction false} NextAllowedText(x: bytes, rest: bytes)
    requires |x| < 256
    ensures NextAllowed(IntToHex(|x|) + x + rest) == Some((x, rest))
  {
    var text := IntToHex(|x|) + x + rest;
    assert DecodeAllowedLen(text[0], text[1]) == Some(|x|);
    assert text[2..2 + |x|] == x;
    assert text[2 + |x|..] == rest;
  }

  lemma {:induction false} AllowedRoundTrip(defs: seq<bytes>)
    requires forall i :: 0 <= i < |defs| ==> |defs[i]| < 256
    ensures ParseAllowed(AllowedText(defs)) == Some(defs)
  {
    if defs != [] {
      NextAllowedText(defs[0], AllowedText(defs[1..]));
      AllowedRoundTrip(defs[1..]);
      assert [defs[0]] + defs[1..] == defs;
    }
  }

  /** 255 elements of at most 255 bytes cannot overflow the 16-bit length: 255 * 257 = 65535. */
  lemma {:induction false} AllowedLengthBound(defs: seq<bytes>)
    requires forall i :: 0 <= i < |defs| ==> |defs[i]| < 256
    ensures |AllowedText(defs)| <= 257 * |defs|
  {
    if defs != [] {
      AllowedLengthBound(defs[1..]);
    }
  }

  // ----- one node, in three groups of fields -----

  function EncodeNames(n: Node, rest: bytes): bytes {
    Put8(n.name, Put8(n.nodeType, Put8(n.uuid, Put16(n.description, rest))))
  }

  function EncodeTyping(n: Node, rest: bytes): bytes {
    Put8(n.dataType, Put8(n.min, Put8(n.max, Put8(n.unit, rest))))
  }

  function PutValues(defs: seq<bytes>, defaultValue: bytes, validate: bytes, count: byte, rest: bytes): bytes {
    Put16(AllowedText(defs), Put8(defaultValue, Put8(validate, [count] + rest)))
  }

  function EncodeValues(n: Node, rest: bytes): bytes {
    PutValues(n.allowedDef, n.defaultValue, ValidateToString(n.validate), |n.children| % 256, rest)
  }

  function EncodeFields(n: Node, rest: bytes): bytes {
    EncodeNames(n, EncodeTyping(n, EncodeValues(n, rest)))
  }

  datatype Names = Names(name: bytes, nodeType: bytes, uuid: bytes, description: bytes) {
    predicate Short() {
      |name| < 256 && |nodeType| < 256 && |uuid| < 256 && |description| < 65536
    }
  }

  datatype Typing = Typing(dataType: bytes, min: bytes, max: bytes, unit: bytes) {
    predicate Short() {
      |dataType| < 256 && |min| < 256 && |max| < 256 && |unit| < 256
    }
  }

  datatype Values = Values(allowedDef: seq<bytes>, defaultValue: bytes, validate: bytes, count: byte) {
    predicate Short() {
      |allowedDef| < 256 && |defaultValue| < 256 && forall i :: 0 <= i < |allowedDef| ==> |allowedDef[i]| < 256
    }
  }

  function ParseNames(s: bytes): (r: Option<(Names, bytes)>)
    ensures r.Some? ==> |r.value.1| + 5 <= |s| && r.value.0.Short()
  {
    var name :- Get8(s);
    var nodeType :- Get8(name.1);
    var uuid :- Get8(nodeType.1);
    var description :- Get16(uuid.1);
    Some((Names(name.0, nodeType.0, uuid.0, description.0), description.1))
  }

  function ParseTyping(s: bytes): (r: Option<(Typing, bytes)>)
    ensures r.Some? ==> |r.value.1| + 4 <= |s| && r.value.0.Short()
  {
    var dataType :- Get8(s);
    var min :- Get8(dataType.1);
    var max :- Get8(min.1);
    var unit :- Get8(max.1);
    Some((Typing(dataType.0, min.0, max.0, unit.0), unit.1))
  }

  function ParseValues(s: bytes): (r: Option<(Values, bytes)>)
    ensures r.Some? ==> |r.value.1| + 5 <= |s| && r.value.0.Short()
  {
    var allowed :- Get16(s);
    var defs :- ParseAllowed(allowed.0);
    var defaultValue :- Get8(allowed.1);
    var validate :- Get8(defaultValue.1);
    if validate.1 == [] then None
    else
      Some((Values(KeepAllowed(defs), defaultValue.0, validate.0, validate.1[0]),
            validate.1[1..]))
  }

  /** The fields of a node, its declared number of children, and the bytes after it. */
  datatype Header = Header(node: Node, count: byte, rest: bytes)

  function MakeNode(n: Names, t: Typing, v: Values): Node {
    Node(n.name, n.nodeType, n.uuid, n.description,
         if n.nodeType == BRANCH then [] else t.dataType,
         t.min, t.max, t.unit, v.allowedDef, v.defaultValue, ValidateToInt(v.validate), [])
  }

  function ParseFields(s: bytes): (r: Option<Header>)
    ensures r.Some? ==> |r.value.rest| + 14 <= |s|
  {
    var names :- ParseNames(s);
    var typing :- ParseTyping(names.1);
    var values :- ParseValues(typing.1);
    Some(Header(MakeNode(names.0, typing.0, values.0), values.0.count, values.1))
  }

  /** Every field fits its length prefix. */
  ghost predicate FieldsFit(n: Node) {
    && |n.name| < 256 && |n.nodeType| < 256 && |n.uuid| < 256 && |n.description| < 65536
    && |n.dataType| < 256 && |n.min| < 256 && |n.max| < 256 && |n.unit| < 256
    && |n.defaultValue| < 256 && |n.children| < 256
    && AllowedFits(n.allowedDef)
  }

  /** What the format keeps of a node's own fields. */
  function StoredFields(n: Node): Node {
    n.(dataType := if n.nodeType == BRANCH then [] else n.dataType,
       allowedDef := KeepAllowed(n.allowedDef),
       validate := StoredValidate(n.validate))
  }

  lemma {:induction false} NamesRoundTrip(n: Node, rest: bytes)
    requires FieldsFit(n)
    ensures ParseNames(EncodeNames(n, rest))
         == Some((Names(n.name, n.nodeType, n.uuid, n.description), rest))
  {
    var s3 := Put16(n.description, rest);
    var s2 := Put8(n.uuid, s3);
    GetPut8(n.name, Put8(n.nodeType, s2));
    GetPut8(n.nodeType, s2);
    GetPut8(n.uuid, s3);
    GetPut16(n.description, rest);
  }

  lemma {:induction false} TypingRoundTrip(n: Node, rest: bytes)
    requires FieldsFit(n)
    ensures ParseTyping(EncodeTyping(n, rest)) == Some((Typing(n.dataType, n.min, n.max, n.unit), rest))
  {
    var s3 := Put8(n.unit, rest);
    var s2 := Put8(n.max, s3);
    GetPut8(n.dataType, Put8(n.min, s2));
    GetPut8(n.min, s2);
    GetPut8(n.max, s3);
    GetPut8(n.unit, rest);
  }

  lemma {:induction false} PutValuesParse(defs: seq<bytes>, defaultValue: bytes, validate: bytes, count: byte, rest: bytes)
    requires AllowedFits(defs) && |defaultValue| < 256 && |validate| < 256
    ensures ParseValues(PutValues(defs, defaultValue, validate, count, rest))
         == Some((Values(KeepAllowed(defs), defaultValue, validate, count), rest))
  {
    var s3 := [count] + rest;
    var s2 := Put8(validate, s3);
    GetPut16(AllowedText(defs), Put8(defaultValue, s2));
    AllowedRoundTrip(defs);
    GetPut8(defaultValue, s2);
    GetPut8(validate, s3);
    assert s3[1..] == rest;
  }

  lemma {:induction false} FieldsRoundTrip(n: Node, rest: bytes)
    requires FieldsFit(n)
    ensures ParseFields(EncodeFields(n, rest))
         == Some(Header(StoredFields(n).(children := []), |n.children|, rest))
  {
    hide ParseNames, ParseTyping, ParseValues, EncodeNames, EncodeTyping, PutValues, ValidateToInt, ValidateToString;
    NamesRoundTrip(n, EncodeTyping(n, EncodeValues(n, rest)));
    TypingRoundTrip(n, EncodeValues(n, rest));
    ValidateRoundTrip(n.validate);
    PutValuesParse(n.allowedDef, n.defaultValue, ValidateToString(n.validate), |n.children|, rest);
  }

  lemma {:induction false} PutValuesAppend(defs: seq<bytes>, defaultValue: bytes, validate: bytes, count: byte, a: bytes, b: bytes)
    ensures PutValues(defs, defaultValue, validate, count, a + b)
         == PutValues(defs, defaultValue, validate, count, a) + b
  {
    assert [count] + (a + b) == [count] + a + b;
    Put8Append(validate, [count] + a, b);
    Put8Append(defaultValue, Put8(validate, [count] + a), b);
  }

  lemma {:induction false} EncodeFieldsAppend(n: Node, a: bytes, b: bytes)
    ensures EncodeFields(n, a + b) == EncodeFields(n, a) + b
  {
    PutValuesAppend(n.allowedDef, n.defaultValue, ValidateToString(n.validate), |n.children| % 256, a, b);
    assert EncodeTyping(n, EncodeValues(n, a) + b) == EncodeTyping(n, EncodeValues(n, a)) + b;
    assert EncodeNames(n, EncodeTyping(n, EncodeValues(n, a)) + b) == EncodeFields(n, a) + b;
  }

  lemma {:induction false} ParseNamesAppend(s: bytes, more: bytes)
    requires ParseNames(s).Some?
    ensures ParseNames(s + more) == Some((ParseNames(s).value.0, ParseNames(s).value.1 + more))
  {
    var name := Get8(s).value;
    var nodeType := Get8(name.1).value;
    var uuid := Get8(nodeType.1).value;
    Get8Append(s, more);
    Get8Append(name.1, more);
    Get8Append(nodeType.1, more);
    Get16Append(uuid.1, more);
  }

  lemma {:induction false} ParseTypingAppend(s: bytes, more: bytes)
    requires ParseTyping(s).Some?
    ensures ParseTyping(s + more) == Some((ParseTyping(s).value.0, ParseTyping(s).value.1 + more))
  {
    var dataType := Get8(s).value;
    var min := Get8(dataType.1).value;
    var max := Get8(min.1).value;
    Get8Append(s, more);
    Get8Append(dataType.1, more);
    Get8Append(min.1, more);
    Get8Append(max.1, more);
  }

  lemma {:induction false} ParseValuesAppend(s: bytes, more: bytes)
    requires ParseValues(s).Some?
    ensures ParseValues(s + more) == Some((ParseValues(s).value.0, ParseValues(s).value.1 + more))
  {
    var allowed := Get16(s).value;
    var defaultValue := Get8(allowed.1).value;
    var validate := Get8(defaultValue.1).value;
    Get16Append(s, more);
    Get8Append(allowed.1, more);
    Get8Append(defaultValue.1, more);
    assert (validate.1 + more)[1..] == validate.1[1..] + more;
  }

  /** A header that was parsed is parsed the same when more bytes follow. */
  lemma {:induction false} ParseFieldsAppend(s: bytes, more: bytes)
    requires ParseFields(s).Some?
    ensures ParseFields(s + more)
         == Some(ParseFields(s).value.(rest := ParseFields(s).value.rest + more))
  {
    var names := ParseNames(s).value;
    var typing := ParseTyping(names.1).value;
    ParseNamesAppend(s, more);
    ParseTypingAppend(names.1, more);
    ParseValuesAppend(typing.1, more);
  }

  // ----- the whole tree -----

  /** The children the writer visits: as many as the one-byte count says. */
  function WrittenChildren(n: Node): seq<Node> {
    if |n.children| < 256 then n.children else n.children[..|n.children| % 256]
  }

  function EncodeTree(t: Node, rest: bytes): bytes
    decreases t
  {
    EncodeFields(t, EncodeForest(WrittenChildren(t), rest))
  }

  function EncodeForest(ts: seq<Node>, rest: bytes): bytes
    decreases ts
  {
    if ts == [] then rest else EncodeTree(ts[0], EncodeForest(ts[1..], rest))
  }

  /** The counters kept while reading. */
  datatype Meta = Meta(currentDepth: int, maxTreeDepth: int, totalNodes: int) {
    function Enter(): Meta {
      Meta(currentDepth + 1, if currentDepth + 1 > maxTreeDepth then maxTreeDepth + 1 else maxTreeDepth, totalNodes + 1)
    }
    function Leave(): Meta {
      this.(currentDepth := currentDepth - 1)
    }
    predicate WithinLimits() {
      currentDepth <= MAX_TREE_DEPTH && totalNodes <= MAX_TREE_NODES
    }
  }

  const START := Meta(0, 0, 0)

  datatype ReadResult<T> = Read(value: T, rest: bytes, meta: Meta) | Rejected(meta: Meta)

  function ReadTree(m: Meta, s: bytes): (r: ReadResult<Node>)
    ensures r.Read? ==> |r.rest| < |s|
    decreases |s|, 0
  {
    var m1 := m.Enter();
    if !m1.WithinLimits() then Rejected(m1.Leave())
    else
      match ParseFields(s)
      case None => Rejected(m1.Leave())
      case Some(h) =>
        match ReadForest(m1, h.count, h.rest)
        case Rejected(m2) => Rejected(m2.Leave())
        case Read(ts, rest, m2) => Read(h.node.(children := ts), rest, m2.Leave())
  }

  function ReadForest(m: Meta, count: nat, s: bytes): (r: ReadResult<seq<Node>>)
    ensures r.Read? ==> |r.value| == count && |r.rest| <= |s|
    decreases |s|, count + 1
  {
    if count == 0 then Read([], s, m)
    else
      match ReadTree(m, s)
      case Rejected(m1) => Rejected(m1)
      case Read(t, s1, m1) =>
        match ReadForest(m1, count - 1, s1)
        case Rejected(m2) => Rejected(m2)
        case Read(ts, rest, m2) => Read([t] + ts, rest, m2)
  }
}
