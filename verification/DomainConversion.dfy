/**
 The feeder's conversion of a signal, with both of the tool's files in between: the partner's name
 from the signal map, and the value converted by the entry of the scaling list that the map selects.
 Parsing and printing of numbers are left open.
 */
module DomainConversion {
  import opened ByteStrings
  import opened JsonText
  import opened FeederMap
  import opened Scaling

  datatype Floats = Floats(parse: text -> Option<real>, format: real -> text)

  // ----- one value -----

  function Coefficient(fl: Floats, t: Term): Option<real> {
    if t.Word? then fl.parse(t.chars) else None
  }

  /** Conversion by the coefficients in a list; empty if anything is wrong. */
  function LinearValue(fl: Floats, items: seq<Term>, north2South: bool, value: text): text {
    if |items| < 2 then []
    else
      match (fl.parse(value), Coefficient(fl, items[0]), Coefficient(fl, items[1]))
      case (Some(x), Some(a), Some(b)) =>
        (match LinearConversion(Coefficients(a, b), north2South, x)
         case None => []
         case Some(y) => fl.format(y))
      case _ => []
  }

  /** Conversion by an enumeration; empty if the value is not in it. */
  ghost predicate IsEnumValue(enumObj: map<text, Term>, north2South: bool, value: text, out: text) {
    if north2South then out == if value in enumObj && enumObj[value].Str? then enumObj[value].chars else []
    else if exists k :: k in enumObj && enumObj[k] == Str(value) then out in enumObj && enumObj[out] == Str(value)
    else out == []
  }

  /** `out` is what a value may be converted to; only repeated values of an enumeration leave a choice. */
  ghost predicate IsConverted(fl: Floats, list: seq<text>, convertIndex: uint16, north2South: bool, value: text, out: text) {
    if convertIndex == 0 then out == value
    else if convertIndex - 1 >= |list| then out == []
    else
      match ReadWhole(list[convertIndex - 1])
      case Some(Obj(members)) => IsEnumValue(Decoded(members), north2South, value, out)
      case Some(Arr(items)) => out == LinearValue(fl, items, north2South, value)
      case _ => out == []
  }

  method ConvertValue(fl: Floats, list: seq<text>, convertIndex: uint16, north2South: bool, value: text) returns (out: text)
    ensures IsConverted(fl, list, convertIndex, north2South, value, out)
  {
    hide ReadWhole, Decoded, LinearValue;
    if convertIndex == 0 {
      return value;
    }
    if convertIndex - 1 >= |list| {
      return [];
    }
    match ReadWhole(list[convertIndex - 1])
    case Some(Obj(members)) =>
      var r := EnumConversion(Decoded(members), north2South, value);
      return if r.Some? then r.value else [];
    case Some(Arr(items)) =>
      return LinearValue(fl, items, north2South, value);
    case _ =>
      return [];
  }

  // ----- through both files -----

  /** The feeder's scaling list; empty if the file cannot be read. */
  function ListOf(file: text): seq<text> {
    match FeederList(file) case None => [] case Some(list) => list
  }

  /**
   From the tool's table and scaling list, over both files, to the converted signal: the partner's
   name, and the value converted by the entry its row's conversion index selects. A name that is in
   no row gives nothing.
   */
  method ConvertDomainData(table: array<Entry>, ghost rows: seq<Row>, scaleDataList: seq<bytes>, fl: Floats,
                           north2South: bool, name: bytes, value: text)
    returns (outName: Option<bytes>, outValue: text)
    requires IsTableOf(table[..], rows) && forall i :: 0 <= i < table.Length ==> Storable(table[i])
    modifies table
    ensures forall i :: 0 <= i < |rows| ==>
              && (name == rows[i].north.name ==>
                    && outName == Some(rows[i].south.name)
                    && IsConverted(fl, ListOf(ScalingFile(scaleDataList, [])), rows[i].north.convertIndex, north2South, value, outValue))
              && (name == rows[i].south.name ==>
                    && outName == Some(rows[i].north.name)
                    && IsConverted(fl, ListOf(ScalingFile(scaleDataList, [])), rows[i].south.convertIndex, north2South, value, outValue))
    ensures (forall i :: 0 <= i < |rows| ==> name != rows[i].north.name && name != rows[i].south.name) ==> outName == None
  {
    hide IsTableOf, ListOf, ScalingFile, IsConverted, Reordered, EncodeAll, ReadElement;
    assert Leftover([], EncodeAll(Reordered(table[..]), [])) == [] by { TableCorresponds(table[..], rows); }
    var target := ConvertThroughFile(table, rows, [], name);
    NothingToRead();
    if target.None? {
      return None, [];
    }
    var file := WriteScaleDataList(scaleDataList, []);
    assert Leftover([], ScalingFile(scaleDataList, [])) == [];
    outValue := ConvertValue(fl, ListOf(file), target.value.convertIndex, north2South, value);
    outName := Some(target.value.name);
  }

  lemma NothingToRead()
    ensures ReadAll([]) == []
  {
  }

  // ----- what the conversions do -----

  lemma {:induction false} Selected(scaleDataList: seq<bytes>, convertIndex: uint16, entry: bytes)
    requires StoredAt(convertIndex, scaleDataList, entry) && forall i :: 0 <= i < |scaleDataList| ==> FileText(scaleDataList[i])
    ensures var list := ListOf(ScalingFile(scaleDataList, []));
            convertIndex - 1 < |list| && list[convertIndex - 1] == entry
  {
    hide FeederList, ScalingFile, FileText;
    FileReadIff(scaleDataList);
  }

  /**
   A row that stores an enumeration with distinct values on both sides: over the file, each northern
   value is converted to its southern counterpart and back.
   */
  lemma {:induction false} EnumOverFile(fl: Floats, scaleDataList: seq<bytes>, convertIndex: uint16,
                                        north: seq<bytes>, south: seq<bytes>, i: nat, out: text)
    requires |north| == |south| && i < |north| && AllPlain(north) && AllPlain(south)
    requires forall j, k :: 0 <= j < k < |north| ==> north[j] != north[k] && south[j] != south[k]
    requires forall i :: 0 <= i < |scaleDataList| ==> FileText(scaleDataList[i])
    requires StoredAt(convertIndex, scaleDataList, EnumText(north, south))
    ensures var list := ListOf(ScalingFile(scaleDataList, []));
            && (IsConverted(fl, list, convertIndex, true, north[i], out) ==> out == south[i])
            && (IsConverted(fl, list, convertIndex, false, south[i], out) ==> out == north[i])
  {
    hide ListOf, ScalingFile, FileText, ReadValue, EnumText, Decoded, Plain, StoredAt;
    Selected(scaleDataList, convertIndex, EnumText(north, south));
    assert convertIndex >= 2 by { StoredFromTwo(convertIndex, scaleDataList, EnumText(north, south)); }
    ReadEnumText(north, south);
    assert SkipSpace([]) == [];
    DecodedPairs(north, south);
    var enumObj := Decoded(PairTerms(north, south));
    assert enumObj[north[i]] == Str(south[i]);
    if out in enumObj && enumObj[out] == Str(south[i]) {
      var k :| 0 <= k < |north| && north[k] == out;
      assert enumObj[north[k]] == Str(south[k]);
    }
  }

  lemma StoredFromTwo(convertIndex: uint16, scaleDataList: seq<bytes>, entry: bytes)
    requires StoredAt(convertIndex, scaleDataList, entry)
    ensures convertIndex >= 2
  {
  }

  /** The text of two coefficients. */
  function LinearText(a: bytes, b: bytes): bytes {
    [OPEN_BRACKET] + (a + ([COMMA, 0x20] + (b + [CLOSE_BRACKET])))
  }

  lemma ScaleIs(c: Coefficients, x: real)
    ensures Scale(c, x) == c.a * x + c.b
  {
  }

  lemma LinearLiteral(a: bytes, b: bytes)
    ensures LinearText(a, b) == Ascii("[") + a + Ascii(", ") + b + Ascii("]")
  {
  }

  predicate IsNumber(s: bytes) {
    s != [] && forall i :: 0 <= i < |s| ==> IsWordChar(s[i])
  }

  lemma {:induction false} ReadNumber(a: bytes, rest: text)
    requires IsNumber(a) && rest != [] && !IsWordChar(rest[0])
    ensures ReadValue(a + rest) == Some((Word(a), rest))
  {
    hide ReadMembers, ReadItems, ReadChars;
    NoSkip(a + rest);
    NumberLength(a, rest);
    assert (a + rest)[..|a|] == a && (a + rest)[|a|..] == rest;
  }

  lemma {:induction false} NumberLength(a: bytes, rest: text)
    requires (forall i :: 0 <= i < |a| ==> IsWordChar(a[i])) && rest != [] && !IsWordChar(rest[0])
    ensures WordLength(a + rest) == |a|
  {
    if a == [] {
      assert a + rest == rest;
    } else {
      assert (a + rest)[1..] == a[1..] + rest;
      NumberLength(a[1..], rest);
    }
  }

  lemma {:induction false} ReadLinear(a: bytes, b: bytes)
    requires IsNumber(a) && IsNumber(b)
    ensures ReadWhole(LinearText(a, b)) == Some(Arr([Word(a), Word(b)]))
  {
    hide ReadValue;
    var second: bytes := b + [CLOSE_BRACKET];
    var first: bytes := a + ([COMMA, 0x20] + second);
    var s := LinearText(a, b);
    ReadNumber(b, [CLOSE_BRACKET]);
    NoSkip([CLOSE_BRACKET]);
    assert [CLOSE_BRACKET][1..] == [];
    assert ReadItems(second) == Some(([Word(b)], []));
    SpaceBefore(second);
    ReadNumber(a, [COMMA, 0x20] + second);
    NoSkip([COMMA, 0x20] + second);
    assert ([COMMA, 0x20] + second)[1..] == [0x20] + second;
    assert ReadItems(first) == Some(([Word(a)] + [Word(b)], []));
    assert first[0] == a[0] && IsWordChar(a[0]);
    ReadList(first);
    assert [Word(a)] + [Word(b)] == [Word(a), Word(b)];
    assert s == [OPEN_BRACKET] + first && SkipSpace([]) == [];
  }

  lemma {:induction false} SpaceBefore(s: text)
    ensures ReadItems([0x20] + s) == ReadItems(s)
  {
    hide ReadMembers, ReadChars, WordLength;
    assert ([0x20] + s)[1..] == s;
    assert ReadValue([0x20] + s) == ReadValue(s);
  }

  lemma {:induction false} ReadList(s: text)
    requires s != [] && !IsSpace(s[0]) && s[0] != CLOSE_BRACKET && ReadItems(s).Some?
    ensures ReadValue([OPEN_BRACKET] + s) == Some((Arr(ReadItems(s).value.0), ReadItems(s).value.1))
  {
    hide ReadItems, ReadMembers, ReadChars;
    NoSkip([OPEN_BRACKET] + s);
    assert ([OPEN_BRACKET] + s)[1..] == s;
    NoSkip(s);
  }

  /**
   A row that stores coefficients A and B: over the file, a number x goes south as A x + B. Where
   that number is printed exactly, it comes back north as x if A is not zero, and as nothing if it is.
   */
  lemma {:induction false} LinearOverFile(fl: Floats, scaleDataList: seq<bytes>, convertIndex: uint16, a: bytes, b: bytes, c: Coefficients,
                                          value: text, x: real, there: text, back: text)
    requires IsNumber(a) && IsNumber(b) && fl.parse(a) == Some(c.a) && fl.parse(b) == Some(c.b) && fl.parse(value) == Some(x)
    requires forall i :: 0 <= i < |scaleDataList| ==> FileText(scaleDataList[i])
    requires StoredAt(convertIndex, scaleDataList, Ascii("[") + a + Ascii(", ") + b + Ascii("]"))
    requires IsConverted(fl, ListOf(ScalingFile(scaleDataList, [])), convertIndex, true, value, there)
    requires IsConverted(fl, ListOf(ScalingFile(scaleDataList, [])), convertIndex, false, there, back)
    ensures there == fl.format(c.a * x + c.b)
    ensures fl.parse(there) == Some(c.a * x + c.b) ==> back == if c.a == 0.0 then [] else fl.format(x)
  {
    hide ListOf, ScalingFile, FileText, LinearText, StoredAt, IsNumber, Scale, Unscale, ReadWhole;
    assert Scale(c, x) == c.a * x + c.b by { ScaleIs(c, x); }
    LinearLiteral(a, b);
    Selected(scaleDataList, convertIndex, LinearText(a, b));
    StoredFromTwo(convertIndex, scaleDataList, LinearText(a, b));
    ReadLinear(a, b);
    if c.a != 0.0 {
      UnscaleScale(c, x);
    }
  }

  // false, true, 0 and 1
  const TRUTHS: seq<bytes> := [[0x66, 0x61, 0x6C, 0x73, 0x65], [0x74, 0x72, 0x75, 0x65]]
  const DIGITS: seq<bytes> := [[0x30], [0x31]]

  /** The boolean entry is the enumeration of false and true as 0 and 1. */
  lemma {:induction false} BooleanIsEnum()
    ensures EnumText(TRUTHS, DIGITS) == BOOLEAN
  {
    assert TRUTHS[1..] == [TRUTHS[1]] && DIGITS[1..] == [DIGITS[1]];
    LastPair();
    assert EnumPairs(TRUTHS, DIGITS, [CLOSE_BRACE]) == PutPair(TRUTHS[0], DIGITS[0], SEPARATOR + TRUE_PAIR);
  }

  lemma BooleansPlain()
    ensures AllPlain(TRUTHS) && AllPlain(DIGITS)
  {
  }

  // "true":"1"}
  const TRUE_PAIR: text := [0x22, 0x74, 0x72, 0x75, 0x65, 0x22, 0x3A, 0x22, 0x31, 0x22, 0x7D]

  lemma {:induction false} LastPair()
    ensures EnumPairs([TRUTHS[1]], [DIGITS[1]], [CLOSE_BRACE]) == TRUE_PAIR
  {
    assert EnumPairs([], [], [CLOSE_BRACE]) == [CLOSE_BRACE] && [] + [CLOSE_BRACE] == [CLOSE_BRACE];
    assert PutPair(TRUTHS[1], DIGITS[1], [CLOSE_BRACE]) == TRUE_PAIR;
  }

  /** Conversion index 1: false and true go south as 0 and 1, and come back. */
  lemma {:induction false} BooleanOverFile(fl: Floats, scaleDataList: seq<bytes>, i: nat, out: text)
    requires i < 2 && scaleDataList != [] && forall i :: 0 <= i < |scaleDataList| ==> FileText(scaleDataList[i])
    ensures var list := ListOf(ScalingFile(scaleDataList, []));
            && (IsConverted(fl, list, 1, true, TRUTHS[i], out) ==> out == DIGITS[i])
            && (IsConverted(fl, list, 1, false, DIGITS[i], out) ==> out == TRUTHS[i])
  {
    hide ScalingFile, FileText, ReadValue, EnumText, Decoded, Plain, FeederList;
    FileReadIff(scaleDataList);
    BooleanIsEnum();
    BooleansPlain();
    ReadEnumText(TRUTHS, DIGITS);
    assert SkipSpace([]) == [];
    assert TRUTHS[0] != TRUTHS[1] && DIGITS[0] != DIGITS[1];
    DecodedPairs(TRUTHS, DIGITS);
    var enumObj := Decoded(PairTerms(TRUTHS, DIGITS));
    assert enumObj[TRUTHS[i]] == Str(DIGITS[i]);
    if out in enumObj && enumObj[out] == Str(DIGITS[i]) {
      var k :| 0 <= k < |TRUTHS| && TRUTHS[k] == out;
      assert enumObj[TRUTHS[k]] == Str(DIGITS[k]);
    }
  }
}
