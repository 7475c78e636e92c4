/**
 Value conversion between two domains: the tool's list of scale entries, the file it is passed in,
 and the conversions the feeder does with it. Entries and files are bytes. Linear coefficients are
 real numbers here.
 */
module Scaling {
  import opened ByteStrings
  import opened JsonText

  // ----- the tool's list -----

  /** The list with the entry in it, once. */
  function Interned(list: seq<bytes>, entry: bytes): seq<bytes> {
    if IndexOf(list, entry) < |list| then list else list + [entry]
  }

  class ScaleData {
    var scaleDataList: seq<bytes>

    constructor ()
      ensures scaleDataList == []
    {
      scaleDataList := [];
    }

    /** The index of an entry, appended if it is new; nothing that was there moves. */
    method Intern(entry: bytes) returns (index: nat)
      modifies this
      ensures scaleDataList == Interned(old(scaleDataList), entry)
      ensures index < |scaleDataList| && scaleDataList[index] == entry
      ensures old(scaleDataList) <= scaleDataList
    {
      var i := 0;
      while i < |scaleDataList|
        invariant 0 <= i <= |scaleDataList| && scaleDataList == old(scaleDataList)
        invariant forall k :: 0 <= k < i ==> scaleDataList[k] != entry
      {
        if scaleDataList[i] == entry {
          assert IndexOf(scaleDataList, entry) == i;
          return i;
        }
        i := i + 1;
      }
      assert IndexOf(scaleDataList, entry) == |scaleDataList|;
      scaleDataList := scaleDataList + [entry];
      return |scaleDataList| - 1;
    }

    /**
     The conversion index for a pair of signals. What the lists of enumeration values and the unit
     table hold is an argument.
     */
    method CreateConversionIndex(nbd: ToolData, sbd: ToolData, unpack: bytes -> Option<seq<bytes>>, coefficients: (bytes, bytes) -> Option<bytes>)
      returns (index: nat)
      modifies this
      ensures IsIndexFor(nbd, sbd, unpack, coefficients, scaleDataList, index) && old(scaleDataList) <= scaleDataList
      ensures index == 0 || index == 1 ==> scaleDataList == old(scaleDataList)
    {
      hide EnumText;
      if sbd.dataType == nbd.dataType && nbd.dataType == Ascii("boolean") {
        return 1;
      }
      if sbd.unit == nbd.unit && nbd.enumValues == [] {
        return 0;
      }
      if nbd.enumValues != [] && sbd.enumValues != [] {
        var north, south := unpack(nbd.enumValues), unpack(sbd.enumValues);
        if north.None? || south.None? || |north.value| != |south.value| {
          return 65535;
        }
        var enumMap := BuildEnumText(north.value, south.value);
        index := Intern(enumMap);
        return index + 2;
      }
      if nbd.unit != [] && sbd.unit != [] && sbd.unit != nbd.unit {
        var pair := coefficients(nbd.unit, sbd.unit);
        if pair.None? {
          return 65535;
        }
        index := Intern(pair.value);
        return index + 2;
      }
      return 65535;
    }
  }

  datatype ToolData = ToolData(dataType: bytes, unit: bytes, enumValues: bytes)

  /** The tool stores the place of an entry in its list plus two. */
  predicate StoredAt(index: int, list: seq<bytes>, entry: bytes) {
    2 <= index < |list| + 2 && list[index - 2] == entry
  }

  /**
   Booleans on both sides have index 1, signals of one unit without values index 0; two lists of values
   the place of their enumeration, two different units that of their coefficients; 65535 where there is none.
   */
  ghost predicate IsIndexFor(nbd: ToolData, sbd: ToolData, unpack: bytes -> Option<seq<bytes>>, coefficients: (bytes, bytes) -> Option<bytes>,
                             list: seq<bytes>, index: int) {
    if nbd.dataType == Ascii("boolean") && sbd.dataType == Ascii("boolean") then index == 1
    else if nbd.unit == sbd.unit && nbd.enumValues == [] then index == 0
    else if nbd.enumValues != [] && sbd.enumValues != [] then
      var north, south := unpack(nbd.enumValues), unpack(sbd.enumValues);
      if north.Some? && south.Some? && |north.value| == |south.value|
      then StoredAt(index, list, EnumText(north.value, south.value)) else index == 65535
    else if nbd.unit != [] && sbd.unit != [] && nbd.unit != sbd.unit && coefficients(nbd.unit, sbd.unit).Some?
    then StoredAt(index, list, coefficients(nbd.unit, sbd.unit).value)
    else index == 65535
  }

  function InternAll(list: seq<bytes>, entries: seq<bytes>): seq<bytes>
    decreases |entries|
  {
    if entries == [] then list else InternAll(Interned(list, entries[0]), entries[1..])
  }

  lemma {:induction false} InternAllKeeps(list: seq<bytes>, entries: seq<bytes>)
    ensures list <= InternAll(list, entries)
    decreases |entries|
  {
    if entries != [] {
      InternAllKeeps(Interned(list, entries[0]), entries[1..]);
    }
  }

  // ----- escaping -----

  /** A byte as the tool appends it: taken for a character of its own, so from 0x80 on it becomes two. */
  function Appended(c: byte): bytes {
    if c < 0x80 then [c] else [0xC0 + c / 64, 0x80 + c % 64]
  }

  /** Only quotes are escaped. */
  function EscapeOne(c: byte): bytes {
    if c == QUOTE then [BACKSLASH, QUOTE] else Appended(c)
  }

  function InsertEscape(s: bytes): bytes {
    if s == [] then [] else EscapeOne(s[0]) + InsertEscape(s[1..])
  }

  /** What becomes of an entry's bytes on the way through the file. */
  function Transcoded(s: bytes): bytes {
    if s == [] then [] else Appended(s[0]) + Transcoded(s[1..])
  }

  method RunInsertEscape(s: bytes) returns (r: bytes)
    ensures r == InsertEscape(s)
  {
    hide EscapeOne;
    r := [];
    var i := 0;
    assert s[0..] == s;
    while i < |s|
      invariant 0 <= i <= |s| && r + InsertEscape(s[i..]) == InsertEscape(s)
    {
      assert s[i..][1..] == s[i + 1..];
      assert r + (EscapeOne(s[i]) + InsertEscape(s[i + 1..])) == r + EscapeOne(s[i]) + InsertEscape(s[i + 1..]);
      r := r + EscapeOne(s[i]);
      i := i + 1;
    }
    assert r + InsertEscape(s[i..]) == r;
  }

  /** No backslash and no control character. */
  predicate Quotable(s: bytes) {
    forall i :: 0 <= i < |s| ==> s[i] >= 0x20 && s[i] != BACKSLASH
  }

  predicate Ascii7(s: bytes) {
    forall i :: 0 <= i < |s| ==> s[i] < 0x80
  }

  /** What comes back unchanged: ASCII without backslashes and control characters. */
  predicate FileText(s: bytes) { Quotable(s) && Ascii7(s) }

  lemma {:induction false} TranscodedLength(s: bytes)
    ensures |Transcoded(s)| >= |s|
    ensures |Transcoded(s)| == |s| <==> Ascii7(s)
    ensures Ascii7(s) ==> Transcoded(s) == s
  {
    if s != [] {
      TranscodedLength(s[1..]);
      assert s == [s[0]] + s[1..];
      assert Ascii7(s) <==> s[0] < 0x80 && Ascii7(s[1..]);
    }
  }

  /** A German o with two dots comes back as two other characters. */
  lemma {:induction false} UmlautBroken()
    ensures Quotable([0xC3, 0xB6]) && Transcoded([0xC3, 0xB6]) == [0xC3, 0x83, 0xC2, 0xB6]
  {
    assert Transcoded([0xB6]) == Appended(0xB6) + Transcoded([]);
    assert [0xC3, 0xB6][1..] == [0xB6] && [0xB6][1..] == [];
  }

  // ----- the scaling file -----

  // {"false":"0", "true":"1"}
  const BOOLEAN: bytes := [0x7B, 0x22, 0x66, 0x61, 0x6C, 0x73, 0x65, 0x22, 0x3A, 0x22, 0x30, 0x22, 0x2C, 0x20,
                           0x22, 0x74, 0x72, 0x75, 0x65, 0x22, 0x3A, 0x22, 0x31, 0x22, 0x7D]

  function QuoteEscaped(entry: bytes, rest: bytes): bytes {
    [QUOTE] + (InsertEscape(entry) + ([QUOTE] + rest))
  }

  /** Entries from index `i` on: a comma behind each but the last. */
  function FileEntries(list: seq<bytes>, rest: bytes): bytes {
    if list == [] then rest
    else QuoteEscaped(list[0], (if |list| == 1 then [] else [COMMA]) + FileEntries(list[1..], rest))
  }

  const END: bytes := [CLOSE_BRACKET, 0x0A]

  /**
   The file: a bracket and line feed, the boolean entry with a comma, the list, a bracket and line
   feed. `tail` is what an older, longer file leaves behind, as it is not truncated.
   */
  function ScalingFile(list: seq<bytes>, tail: bytes): bytes {
    hide FileEntries, QuoteEscaped;
    [OPEN_BRACKET, 0x0A] + QuoteEscaped(BOOLEAN, [COMMA] + FileEntries(list, END + tail))
  }

  /** Writes the list over an older file, which is not cut off. */
  method WriteScaleDataList(list: seq<bytes>, oldFile: bytes) returns (file: bytes)
    ensures file == ScalingFile(list, Leftover(oldFile, ScalingFile(list, [])))
  {
    hide InsertEscape, QuoteEscaped;
    file := [OPEN_BRACKET, 0x0A];
    var first := RunInsertEscape(BOOLEAN);
    EntryStep(file, BOOLEAN, [COMMA], FileEntries(list, END));
    file := file + ([QUOTE] + first + [QUOTE] + [COMMA]);
    var i := 0;
    assert list[0..] == list && END + [] == END;
    while i < |list|
      invariant 0 <= i <= |list| && file + FileEntries(list[i..], END) == ScalingFile(list, [])
    {
      assert list[i..][1..] == list[i + 1..];
      var escaped := RunInsertEscape(list[i]);
      var comma: bytes := if i == |list| - 1 then [] else [COMMA];
      EntryStep(file, list[i], comma, FileEntries(list[i + 1..], END));
      file := file + ([QUOTE] + escaped + [QUOTE] + comma);
      i := i + 1;
    }
    file := file + END;
    TailFollows(list, Leftover(oldFile, file));
    file := file + Leftover(oldFile, file);
  }

  lemma {:induction false} EntryStep(front: bytes, entry: bytes, comma: bytes, rest: bytes)
    ensures front + QuoteEscaped(entry, comma + rest) == front + ([QUOTE] + InsertEscape(entry) + [QUOTE] + comma) + rest
  {
    hide InsertEscape;
  }

  lemma {:induction false} FileEntriesAppend(list: seq<bytes>, rest: bytes, tail: bytes)
    ensures FileEntries(list, rest + tail) == FileEntries(list, rest) + tail
  {
    hide InsertEscape;
    if list != [] {
      FileEntriesAppend(list[1..], rest, tail);
      var sep: bytes := if |list| == 1 then [] else [COMMA];
      var others := FileEntries(list[1..], rest);
      assert sep + (others + tail) == (sep + others) + tail;
      QuoteAppend(list[0], sep + others, tail);
    }
  }

  lemma {:induction false} QuoteAppend(entry: bytes, rest: bytes, tail: bytes)
    ensures QuoteEscaped(entry, rest + tail) == QuoteEscaped(entry, rest) + tail
  {
    hide InsertEscape;
  }

  /** What the older file leaves behind simply follows. */
  lemma {:induction false} TailFollows(list: seq<bytes>, tail: bytes)
    ensures ScalingFile(list, tail) == ScalingFile(list, []) + tail
  {
    hide FileEntries, QuoteEscaped;
    assert END + [] == END;
    FileEntriesAppend(list, END, tail);
    var others := FileEntries(list, END);
    assert [COMMA] + (others + tail) == ([COMMA] + others) + tail;
    QuoteAppend(BOOLEAN, [COMMA] + others, tail);
  }

  lemma {:induction false} ReadEscapeOne(c: byte, rest: text)
    requires 0x20 <= c < 0x80 && c != BACKSLASH
    ensures ReadChar(EscapeOne(c) + rest) == Some((c, rest)) && EscapeOne(c) != [] && EscapeOne(c)[0] != QUOTE
  {
    var s := EscapeOne(c) + rest;
    assert s[|EscapeOne(c)|..] == rest;
  }

  lemma {:induction false} ReadTwo(c: byte, rest: text)
    requires c >= 0x80
    ensures var s := EscapeOne(c) + rest;
            ReadChar(s) == Some((Appended(c)[0], s[1..])) && ReadChar(s[1..]) == Some((Appended(c)[1], rest))
            && s[0] != QUOTE && s[1] != QUOTE
  {
    var s := EscapeOne(c) + rest;
    assert s[1..][1..] == rest;
  }

  lemma {:induction false} ReadInserted(s: bytes, rest: text)
    requires Quotable(s)
    ensures ReadChars(InsertEscape(s) + ([QUOTE] + rest)) == Some((Transcoded(s), rest))
    decreases |s|
  {
    hide ReadChar, EscapeOne, Appended;
    var all := InsertEscape(s) + ([QUOTE] + rest);
    if s == [] {
      assert all[1..] == rest;
    } else {
      var tail := InsertEscape(s[1..]) + ([QUOTE] + rest);
      assert all == EscapeOne(s[0]) + tail;
      ReadInserted(s[1..], rest);
      if s[0] < 0x80 {
        ReadEscapeOne(s[0], tail);
        AppendedAscii(s[0]);
      } else {
        ReadTwo(s[0], tail);
        AppendedTwo(s[0]);
        var a, b := Appended(s[0])[0], Appended(s[0])[1];
        assert ReadChars(all[1..]) == Some(([b] + Transcoded(s[1..]), rest));
        assert [a] + ([b] + Transcoded(s[1..])) == [a, b] + Transcoded(s[1..]);
      }
    }
  }

  lemma AppendedAscii(c: byte)
    requires c < 0x80
    ensures Appended(c) == [c]
  {
  }

  lemma AppendedTwo(c: byte)
    requires c >= 0x80
    ensures |Appended(c)| == 2 && Appended(c) == [Appended(c)[0], Appended(c)[1]]
  {
  }

  lemma {:induction false} ReadQuoteEscaped(entry: bytes, rest: bytes)
    requires Quotable(entry)
    ensures ReadValue(QuoteEscaped(entry, rest)) == Some((Str(Transcoded(entry)), rest))
  {
    hide ReadChars, InsertEscape, Transcoded;
    var s := QuoteEscaped(entry, rest);
    NoSkip(s);
    assert s[1..] == InsertEscape(entry) + ([QUOTE] + rest);
    ReadInserted(entry, rest);
  }

  function Strings(list: seq<bytes>): (ts: seq<Term>)
    ensures |ts| == |list| && forall i :: 0 <= i < |list| ==> ts[i] == Str(list[i])
  {
    seq(|list|, i requires 0 <= i < |list| => Str(list[i]))
  }

  function AllTranscoded(list: seq<bytes>): (ts: seq<bytes>)
    ensures |ts| == |list| && forall i :: 0 <= i < |list| ==> ts[i] == Transcoded(list[i])
  {
    seq(|list|, i requires 0 <= i < |list| => Transcoded(list[i]))
  }

  lemma {:induction false} ReadFileEntries(list: seq<bytes>, rest: bytes)
    requires list != [] && forall i :: 0 <= i < |list| ==> Quotable(list[i])
    ensures ReadItems(FileEntries(list, [CLOSE_BRACKET] + rest)) == Some((Strings(AllTranscoded(list)), rest))
    decreases |list|
  {
    hide ReadValue, QuoteEscaped, SkipSpace, Transcoded, Quotable;
    var end := [CLOSE_BRACKET] + rest;
    if |list| == 1 {
      assert list[1..] == [] && [] + end == end;
      ReadQuoteEscaped(list[0], end);
      NoSkip(end);
      assert end[1..] == rest;
      assert Strings(AllTranscoded(list)) == [Str(Transcoded(list[0]))];
    } else {
      var after := [COMMA] + FileEntries(list[1..], end);
      ReadQuoteEscaped(list[0], after);
      NoSkip(after);
      assert after[1..] == FileEntries(list[1..], end);
      ReadFileEntries(list[1..], rest);
      assert Strings(AllTranscoded(list)) == [Str(Transcoded(list[0]))] + Strings(AllTranscoded(list[1..]));
    }
  }

  /** The whole of a text as one value. */
  function ReadWhole(s: text): Option<Term> {
    match ReadValue(s)
    case Some((t, rest)) => if SkipSpace(rest) == [] then Some(t) else None
    case None => None
  }

  predicate AllStrings(items: seq<Term>) {
    forall i :: 0 <= i < |items| ==> items[i].Str?
  }

  /** The feeder's list: the strings of the array in the file, or nothing if the file is not one. */
  function FeederList(file: text): Option<seq<text>> {
    match ReadWhole(file)
    case Some(Arr(items)) =>
      if AllStrings(items) then Some(seq(|items|, i requires 0 <= i < |items| => items[i].chars)) else None
    case _ => None
  }

  /** The list the feeder reads is decided by what is read behind the boolean entry. */
  lemma {:induction false} FileItems(list: seq<bytes>, tail: bytes)
    ensures ReadValue(ScalingFile(list, tail))
         == match ReadItems(FileEntries(list, END + tail)) case None => None case Some(r) => Some((Arr([Str(BOOLEAN)] + r.0), r.1))
  {
    hide ReadItems, QuoteEscaped, FileEntries;
    var others := FileEntries(list, END + tail);
    var file := ScalingFile(list, tail);
    var entries := QuoteEscaped(BOOLEAN, [COMMA] + others);
    NoSkip(file);
    assert file[1..] == [0x0A] + entries;
    QuotedStart(BOOLEAN, [COMMA] + others);
    assert SkipSpace([0x0A] + entries) == entries by {
      assert ([0x0A] + entries)[1..] == entries;
      NoSkip(entries);
    }
    FirstItem(others);
  }

  lemma QuotedStart(entry: bytes, rest: bytes)
    ensures QuoteEscaped(entry, rest) != [] && QuoteEscaped(entry, rest)[0] == QUOTE
  {
  }

  lemma {:induction false} BooleanUnchanged()
    ensures Quotable(BOOLEAN) && Transcoded(BOOLEAN) == BOOLEAN
  {
    hide Transcoded;
    assert Ascii7(BOOLEAN);
    TranscodedLength(BOOLEAN);
  }

  /** Reading the items that begin with the boolean entry goes on after its comma. */
  lemma {:induction false} FirstItem(tail: bytes)
    ensures ReadItems(QuoteEscaped(BOOLEAN, [COMMA] + tail))
         == match ReadItems(tail) case None => None case Some(r) => Some(([Str(BOOLEAN)] + r.0, r.1))
  {
    hide ReadValue, QuoteEscaped, Transcoded, Quotable;
    BooleanUnchanged();
    ReadQuoteEscaped(BOOLEAN, [COMMA] + tail);
    NoSkip([COMMA] + tail);
    assert ([COMMA] + tail)[1..] == tail;
  }

  lemma {:induction false} NothingBeforeBracket(rest: bytes)
    ensures ReadItems([CLOSE_BRACKET] + rest) == None && FileEntries([], [CLOSE_BRACKET] + rest) == [CLOSE_BRACKET] + rest
  {
    NoSkip([CLOSE_BRACKET] + rest);
  }

  /**
   With entries free of backslashes and control characters, the feeder reads the boolean entry and
   then every entry transcoded, exactly if the list is not empty and only white space is left behind.
   */
  lemma {:induction false} FileRead(list: seq<bytes>, tail: bytes)
    requires forall i :: 0 <= i < |list| ==> Quotable(list[i])
    ensures FeederList(ScalingFile(list, tail))
         == if list != [] && SkipSpace(tail) == [] then Some([BOOLEAN] + AllTranscoded(list)) else None
  {
    hide ReadItems, FileEntries, ScalingFile, ReadValue, Transcoded, Quotable;
    FileItems(list, tail);
    assert END + tail == [CLOSE_BRACKET] + ([0x0A] + tail);
    if list == [] {
      NothingBeforeBracket([0x0A] + tail);
    } else {
      ReadFileEntries(list, [0x0A] + tail);
      assert ([0x0A] + tail)[1..] == tail;
      assert SkipSpace([0x0A] + tail) == SkipSpace(tail);
      var items := [Str(BOOLEAN)] + Strings(AllTranscoded(list));
      assert AllStrings(items);
      assert seq(|items|, i requires 0 <= i < |items| => items[i].chars) == [BOOLEAN] + AllTranscoded(list);
    }
  }

  /**
   The index stored for an entry (two more than its place in the tool's list, as 0 and 1 stand for
   no conversion and the boolean entry) selects that entry in the feeder's list, whatever was
   interned after it; the feeder subtracts one. The entry found there is the tool's exactly if it is
   ASCII.
   */
  lemma {:induction false} StoredIndexSelects(list: seq<bytes>, index: nat, later: seq<bytes>)
    requires index < |list| && forall i :: 0 <= i < |InternAll(list, later)| ==> Quotable(InternAll(list, later)[i])
    ensures var read := FeederList(ScalingFile(InternAll(list, later), []));
            && read.Some? && (index + 2) - 1 < |read.value|
            && read.value[(index + 2) - 1] == Transcoded(list[index])
            && (read.value[(index + 2) - 1] == list[index] <==> Ascii7(list[index]))
  {
    hide FeederList, ScalingFile, InternAll, Quotable, Ascii7, Transcoded;
    InternAllKeeps(list, later);
    assert SkipSpace([]) == [];
    FileRead(InternAll(list, later), []);
    TranscodedLength(list[index]);
  }

  // ----- which entries come back -----

  /** Characters that are not white space. */
  function Weight(s: text): nat {
    if s == [] then 0 else (if IsSpace(s[0]) then 0 else 1) + Weight(s[1..])
  }

  /** The least weight of a text that is read as these characters: quotes and backslashes take two. */
  function CostOne(c: int): nat {
    if c == QUOTE || c == BACKSLASH then 2 else if IsSpace(c) then 0 else 1
  }

  function Cost(s: text): nat {
    if s == [] then 0 else CostOne(s[0]) + Cost(s[1..])
  }

  function High(s: text): nat {
    if s == [] then 0 else (if s[0] >= 0x80 then 1 else 0) + High(s[1..])
  }

  lemma {:induction false} CountConcat(a: text, b: text)
    ensures Weight(a + b) == Weight(a) + Weight(b) && High(a + b) == High(a) + High(b)
  {
    if a == [] {
      assert a + b == b;
    } else {
      assert (a + b)[1..] == a[1..] + b;
      CountConcat(a[1..], b);
    }
  }

  lemma {:induction false} CountSkipped(s: text)
    ensures Weight(SkipSpace(s)) == Weight(s) && High(SkipSpace(s)) == High(s)
    ensures SkipSpace(s) == [] ==> Weight(s) == 0 && High(s) == 0
  {
    if s != [] && IsSpace(s[0]) {
      CountSkipped(s[1..]);
    }
  }

  lemma CountOne(s: text)
    requires s != []
    ensures Weight(s) == (if IsSpace(s[0]) then 0 else 1) + Weight(s[1..])
    ensures High(s) == (if s[0] >= 0x80 then 1 else 0) + High(s[1..])
  {
  }

  lemma {:induction false} ReadCharCost(s: text)
    requires ReadChar(s).Some?
    ensures var (c, r) := ReadChar(s).value;
            Weight(s) >= CostOne(c) + Weight(r) && High(s) <= (if c >= 0x80 then 1 else 0) + High(r)
  {
    hide Weight, High, HexValue;
    CountOne(s);
    if s[0] == BACKSLASH {
      CountOne(s[1..]);
      assert s[1..][1..] == s[2..];
      if s[1] == 0x75 {
        assert HexValue(s[2]).Some? && HexValue(s[3]).Some? && HexValue(s[4]).Some? && HexValue(s[5]).Some?;
        FourDigits(s[2..]);
        assert s[2..][4..] == s[6..] == ReadChar(s).value.1;
      }
    }
  }

  /** A code unit written as hex digits weighs more than any character and is below 0x80 throughout. */
  lemma {:induction false} FourDigits(s: text)
    requires |s| >= 4 && forall i :: 0 <= i < 4 ==> HexValue(s[i]).Some?
    ensures Weight(s) == 4 + Weight(s[4..]) && High(s) == High(s[4..])
  {
    CountConcat(s[..4], s[4..]);
    assert s == s[..4] + s[4..];
    NoneHigh(s[..4]);
    NoSpaces(s[..4]);
  }

  lemma {:induction false} NoneHigh(s: text)
    requires forall i :: 0 <= i < |s| ==> s[i] < 0x80
    ensures High(s) == 0
  {
    if s != [] {
      NoneHigh(s[1..]);
    }
  }

  lemma {:induction false} NoSpaces(s: text)
    requires forall i :: 0 <= i < |s| ==> !IsSpace(s[i])
    ensures Weight(s) == |s|
  {
    if s != [] {
      NoSpaces(s[1..]);
    }
  }

  lemma {:induction false} ReadCharsCost(s: text)
    requires ReadChars(s).Some?
    ensures var (a, r) := ReadChars(s).value;
            Weight(s) >= Cost(a) + 1 + Weight(r) && High(s) <= High(a) + High(r)
    decreases |s|
  {
    hide ReadChar, Weight;
    CountOne(s);
    if s[0] != QUOTE {
      ReadCharCost(s);
      var c := ReadChar(s).value;
      ReadCharsCost(c.1);
      var a := ReadChars(s).value.0;
      assert a[1..] == ReadChars(c.1).value.0;
    }
  }

  lemma {:induction false} ReadStringCost(s: text)
    requires ReadValue(s).Some? && ReadValue(s).value.0.Str?
    ensures var (t, r) := ReadValue(s).value;
            Weight(s) >= Cost(t.chars) + 2 + Weight(r) && High(s) <= High(t.chars) + High(r)
  {
    hide ReadChars, Weight, High, ReadMembers, ReadItems, WordLength, SkipSpace, Cost;
    CountSkipped(s);
    CountOne(SkipSpace(s));
    ReadCharsCost(SkipSpace(s)[1..]);
  }

  function CostAll(items: seq<Term>): nat
    requires AllStrings(items)
  {
    if items == [] then 0 else Cost(items[0].chars) + 3 + CostAll(items[1..])
  }

  function HighAll(items: seq<Term>): nat
    requires AllStrings(items)
  {
    if items == [] then 0 else High(items[0].chars) + HighAll(items[1..])
  }

  /** Each string takes its cost, two quotes, and a comma or the closing bracket. */
  lemma {:induction false} ReadItemsCost(s: text)
    requires ReadItems(s).Some? && AllStrings(ReadItems(s).value.0)
    ensures var (items, r) := ReadItems(s).value;
            Weight(s) >= CostAll(items) + Weight(r) && High(s) <= HighAll(items) + High(r)
    decreases |s|
  {
    hide ReadValue, Weight, High, SkipSpace, Cost;
    var items := ReadItems(s).value.0;
    var (t, r) := ReadValue(s).value;
    assert items[0] == t;
    ReadStringCost(s);
    CountSkipped(r);
    var s1 := SkipSpace(r);
    CountOne(s1);
    if s1[0] == COMMA {
      var others := ReadItems(s1[1..]).value.0;
      assert items == [t] + others && items[1..] == others;
      assert forall k :: 0 <= k < |others| ==> others[k] == items[k + 1];
      ReadItemsCost(s1[1..]);
    } else {
      assert items[1..] == [];
    }
  }

  function Backslashes(s: text): nat {
    if s == [] then 0 else (if s[0] == BACKSLASH then 1 else 0) + Backslashes(s[1..])
  }

  lemma {:induction false} CountInserted(s: bytes)
    ensures Weight(InsertEscape(s)) + Backslashes(s) == Cost(s) + High(s)
    ensures High(InsertEscape(s)) == 2 * High(s)
  {
    if s != [] {
      CountInserted(s[1..]);
      CountConcat(EscapeOne(s[0]), InsertEscape(s[1..]));
      CountEscape(s[0]);
    }
  }

  lemma {:induction false} CountEscape(c: byte)
    ensures var e := EscapeOne(c);
            && Weight(e) + (if c == BACKSLASH then 1 else 0) == CostOne(c) + (if c >= 0x80 then 1 else 0)
            && High(e) == if c >= 0x80 then 2 else 0
  {
    var e := EscapeOne(c);
    assert e[1..] == if |e| == 1 then [] else [e[1]];
    if |e| == 2 {
      assert [e[1]][1..] == [];
      assert Weight([e[1]]) == 1 && High([e[1]]) == if c >= 0x80 then 1 else 0;
    }
  }

  function HighIn(list: seq<bytes>): nat {
    if list == [] then 0 else High(list[0]) + HighIn(list[1..])
  }

  function BackslashesIn(list: seq<bytes>): nat {
    if list == [] then 0 else Backslashes(list[0]) + BackslashesIn(list[1..])
  }

  lemma {:induction false} CountQuoted(entry: bytes, rest: bytes)
    ensures Weight(QuoteEscaped(entry, rest)) + Backslashes(entry) == Cost(entry) + High(entry) + 2 + Weight(rest)
    ensures High(QuoteEscaped(entry, rest)) == 2 * High(entry) + High(rest)
  {
    hide InsertEscape, Cost, Backslashes;
    CountInserted(entry);
    var e := InsertEscape(entry);
    CountConcat(e, [QUOTE] + rest);
    CountOne([QUOTE] + rest);
    assert ([QUOTE] + rest)[1..] == rest;
    var all := QuoteEscaped(entry, rest);
    CountOne(all);
    assert all[1..] == e + ([QUOTE] + rest);
  }

  lemma {:induction false} CountEntries(list: seq<bytes>, rest: bytes)
    requires list != []
    ensures Weight(FileEntries(list, [CLOSE_BRACKET] + rest)) + BackslashesIn(list)
         == CostAll(Strings(list)) + HighIn(list) + Weight(rest)
    ensures High(FileEntries(list, [CLOSE_BRACKET] + rest)) == 2 * HighIn(list) + High(rest)
    ensures HighAll(Strings(list)) == HighIn(list)
    decreases |list|
  {
    hide QuoteEscaped, Weight, High, Cost, Backslashes;
    var end: bytes := [CLOSE_BRACKET] + rest;
    var sep: bytes := if |list| == 1 then [] else [COMMA];
    var others := sep + FileEntries(list[1..], end);
    CountQuoted(list[0], others);
    CountOne(others);
    assert Strings(list)[1..] == Strings(list[1..]);
    if |list| == 1 {
      assert list[1..] == [] && others == end && end[1..] == rest;
      assert Strings(list[1..]) == [];
    } else {
      assert others[1..] == FileEntries(list[1..], end);
      CountEntries(list[1..], rest);
    }
  }

  lemma {:induction false} NoCount(s: bytes)
    ensures High(s) == 0 ==> Ascii7(s)
    ensures Backslashes(s) == 0 ==> forall i :: 0 <= i < |s| ==> s[i] != BACKSLASH
  {
    if s != [] {
      NoCount(s[1..]);
      assert s == [s[0]] + s[1..];
    }
  }

  lemma {:induction false} NoCountIn(list: seq<bytes>, i: nat)
    requires i < |list| && HighIn(list) == 0 && BackslashesIn(list) == 0
    ensures Ascii7(list[i]) && forall k :: 0 <= k < |list[i]| ==> list[i][k] != BACKSLASH
  {
    hide High, Backslashes;
    if i == 0 {
      NoCount(list[0]);
    } else {
      NoCountIn(list[1..], i - 1);
    }
  }

  /** A control character cannot be read. */
  lemma {:induction false} ControlStops(s: bytes, rest: text)
    requires !Quotable(s) && Ascii7(s) && forall k :: 0 <= k < |s| ==> s[k] != BACKSLASH
    ensures ReadChars(InsertEscape(s) + ([QUOTE] + rest)) == None
    decreases |s|
  {
    var tail := InsertEscape(s[1..]) + ([QUOTE] + rest);
    var all := InsertEscape(s) + ([QUOTE] + rest);
    assert all == EscapeOne(s[0]) + tail;
    if s[0] >= 0x20 {
      ReadEscapeOne(s[0], tail);
      assert s == [s[0]] + s[1..];
      ControlStops(s[1..], rest);
    }
  }

  lemma {:induction false} ControlStopsEntries(list: seq<bytes>, i: nat, rest: bytes)
    requires i < |list| && !Quotable(list[i])
    requires forall j :: 0 <= j < |list| ==> Ascii7(list[j]) && forall k :: 0 <= k < |list[j]| ==> list[j][k] != BACKSLASH
    ensures ReadItems(FileEntries(list, rest)) == None
    decreases |list|
  {
    hide InsertEscape, Ascii7, Quotable, Transcoded, ReadChars;
    var others := (if |list| == 1 then [] else [COMMA]) + FileEntries(list[1..], rest);
    var s := QuoteEscaped(list[0], others);
    assert FileEntries(list, rest) == s;
    if !Quotable(list[0]) {
      ControlStops(list[0], others);
      NoSkip(s);
      assert s[1..] == InsertEscape(list[0]) + ([QUOTE] + others);
    } else {
      ReadQuoteEscaped(list[0], others);
      NoSkip(others);
      assert others[1..] == FileEntries(list[1..], rest);
      ControlStopsEntries(list[1..], i - 1, rest);
    }
  }

  /** The feeder reads the tool's list exactly if it is not empty and every entry is plain ASCII text. */
  lemma {:induction false} FileReadIff(list: seq<bytes>)
    ensures FeederList(ScalingFile(list, [])) == Some([BOOLEAN] + list)
       <==> list != [] && forall i :: 0 <= i < |list| ==> FileText(list[i])
  {
    hide FeederList, ScalingFile, Quotable, Ascii7;
    if list != [] && forall i :: 0 <= i < |list| ==> FileText(list[i]) {
      FileRead(list, []);
      assert SkipSpace([]) == [];
      forall i | 0 <= i < |list|
        ensures Transcoded(list[i]) == list[i]
      {
        TranscodedLength(list[i]);
      }
      assert AllTranscoded(list) == list;
    }
    if FeederList(ScalingFile(list, [])) == Some([BOOLEAN] + list) {
      ReadBackIsPlain(list);
    }
  }

  lemma {:induction false} ReadBackIsPlain(list: seq<bytes>)
    requires FeederList(ScalingFile(list, [])) == Some([BOOLEAN] + list)
    ensures list != [] && forall i :: 0 <= i < |list| ==> FileText(list[i])
  {
    hide ScalingFile, ReadItems, FileEntries, Quotable, Ascii7, ReadValue, SkipSpace;
    FileItems(list, []);
    assert END + [] == [CLOSE_BRACKET] + [0x0A];
    if list == [] {
      NothingBeforeBracket([0x0A]);
    }
    var s := FileEntries(list, [CLOSE_BRACKET] + [0x0A]);
    var (items, r) := ReadItems(s).value;
    var all := [Str(BOOLEAN)] + items;
    assert ReadWhole(ScalingFile(list, [])) == Some(Arr(all)) && AllStrings(all);
    assert |seq(|all|, i requires 0 <= i < |all| => all[i].chars)| == |[BOOLEAN] + list|;
    forall i | 0 <= i < |list|
      ensures items[i] == Str(list[i])
    {
      assert all[i + 1] == items[i] && ([BOOLEAN] + list)[i + 1] == list[i];
    }
    assert items == Strings(list);
    ReadItemsCost(s);
    CountSkipped(r);
    CountEntries(list, [0x0A]);
    LineFeedCounts();
    forall i | 0 <= i < |list|
      ensures FileText(list[i])
    {
      NoCountIn(list, i);
      if !Quotable(list[i]) {
        forall j | 0 <= j < |list|
          ensures Ascii7(list[j]) && forall k :: 0 <= k < |list[j]| ==> list[j][k] != BACKSLASH
        {
          NoCountIn(list, j);
        }
        ControlStopsEntries(list, i, [CLOSE_BRACKET] + [0x0A]);
      }
    }
  }

  lemma LineFeedCounts()
    ensures Weight([0x0A]) == 0 && High([0x0A]) == 0
  {
  }

  // ----- enumerations -----

  const SEPARATOR: bytes := [COMMA, 0x20]

  function PutBytes(s: bytes, rest: bytes): (r: bytes)
    ensures r == PutText(s, rest)
  {
    [QUOTE] + s + [QUOTE] + rest
  }

  function PutPair(n: bytes, s: bytes, rest: bytes): bytes {
    hide PutText;
    PutBytes(n, [COLON] + PutBytes(s, rest))
  }

  /** `{"north":"south", ...}` over two lists of the same length. */
  function EnumPairs(north: seq<bytes>, south: seq<bytes>, rest: bytes): bytes
    requires |north| == |south|
  {
    hide PutPair;
    if north == [] then rest
    else PutPair(north[0], south[0], (if |north| == 1 then [] else SEPARATOR) + EnumPairs(north[1..], south[1..], rest))
  }

  function EnumText(north: seq<bytes>, south: seq<bytes>): bytes
    requires |north| == |south|
  {
    hide EnumPairs;
    [OPEN_BRACE] + EnumPairs(north, south, [CLOSE_BRACE])
  }

  /** The loop that writes a separator behind every pair and cuts the last one off. */
  method BuildEnumText(north: seq<bytes>, south: seq<bytes>) returns (enumMap: bytes)
    requires |north| == |south|
    ensures enumMap == EnumText(north, south)
  {
    hide PutPair;
    enumMap := [OPEN_BRACE];
    var i := 0;
    assert north[0..] == north && south[0..] == south;
    while i < |north|
      invariant 0 <= i <= |north|
      invariant i > 0 ==> |enumMap| >= 3 && enumMap[|enumMap| - 2..] == SEPARATOR
      invariant EnumText(north, south)
             == if i == |north| && i > 0 then enumMap[..|enumMap| - 2] + [CLOSE_BRACE]
                else enumMap + EnumPairs(north[i..], south[i..], [CLOSE_BRACE])
    {
      assert north[i..][1..] == north[i + 1..] && south[i..][1..] == south[i + 1..];
      PairStep(enumMap, north[i], south[i], EnumPairs(north[i + 1..], south[i + 1..], [CLOSE_BRACE]));
      enumMap := enumMap + ([QUOTE] + north[i] + [QUOTE] + [COLON] + [QUOTE] + south[i] + [QUOTE] + SEPARATOR);
      i := i + 1;
    }
    if |north| > 0 {
      enumMap := enumMap[..|enumMap| - 2] + [CLOSE_BRACE];
    } else {
      enumMap := enumMap + [CLOSE_BRACE];
    }
  }

  lemma {:induction false} PairStep(front: bytes, n: bytes, s: bytes, rest: bytes)
    ensures var added := [QUOTE] + n + [QUOTE] + [COLON] + [QUOTE] + s + [QUOTE] + SEPARATOR;
            && front + PutPair(n, s, SEPARATOR + rest) == front + added + rest
            && (front + added)[..|front + added| - 2] + rest == front + PutPair(n, s, [] + rest)
            && (front + added)[|front + added| - 2..] == SEPARATOR
  {
    var added := [QUOTE] + n + [QUOTE] + [COLON] + [QUOTE] + s + [QUOTE] + SEPARATOR;
    assert [] + rest == rest;
    assert (front + added)[..|front + added| - 2] == front + ([QUOTE] + n + [QUOTE] + [COLON] + [QUOTE] + s + [QUOTE]);
  }

  function PairTerms(north: seq<bytes>, south: seq<bytes>): (ms: seq<(text, Term)>)
    requires |north| == |south|
    ensures |ms| == |north| && forall i :: 0 <= i < |north| ==> ms[i] == (north[i], Str(south[i]))
  {
    seq(|north|, i requires 0 <= i < |north| => (north[i], Str(south[i])))
  }

  predicate AllPlain(list: seq<bytes>) {
    forall i :: 0 <= i < |list| ==> Plain(list[i])
  }

  lemma {:induction false} ReadPair(n: bytes, s: bytes, rest: bytes)
    requires Plain(n)
    ensures ReadKey(PutPair(n, s, rest)) == Some((n, PutText(s, rest)))
    ensures Plain(s) ==> ReadValue(PutText(s, rest)) == Some((Str(s), rest))
  {
    hide ReadChars, PutText, SkipSpace, Plain, ReadKey;
    ReadPutKey(n, PutText(s, rest));
    if Plain(s) {
      ReadPutText(s, rest);
    }
  }

  lemma {:induction false} ReadPairs(north: seq<bytes>, south: seq<bytes>, rest: bytes)
    requires |north| == |south| > 0 && AllPlain(north) && AllPlain(south)
    ensures ReadMembers(EnumPairs(north, south, [CLOSE_BRACE] + rest)) == Some((PairTerms(north, south), rest))
    decreases |north|
  {
    hide ReadKey, ReadValue, PutText, PutPair, SkipSpace, Plain;
    var end: bytes := [CLOSE_BRACE] + rest;
    if |north| == 1 {
      assert [] + end == end;
      ReadPair(north[0], south[0], end);
      NoSkip(end);
      assert end[1..] == rest;
      assert PairTerms(north, south) == [(north[0], Str(south[0]))];
    } else {
      var others := EnumPairs(north[1..], south[1..], end);
      var after := SEPARATOR + others;
      ReadPair(north[0], south[0], after);
      NoSkip(after);
      assert after[1..] == [0x20] + others;
      ReadPairs(north[1..], south[1..], rest);
      ReadMembersAfterSpace(others);
      assert PairTerms(north, south) == [(north[0], Str(south[0]))] + PairTerms(north[1..], south[1..]);
    }
  }

  lemma {:induction false} ReadMembersAfterSpace(s: text)
    ensures ReadMembers([0x20] + s) == ReadMembers(s)
  {
    hide ReadValue, ReadChars;
    assert ([0x20] + s)[1..] == s;
    assert ReadKey([0x20] + s) == ReadKey(s);
  }

  /** The text of an enumeration of plain strings is the object of its pairs. */
  lemma {:induction false} ReadEnumText(north: seq<bytes>, south: seq<bytes>)
    requires |north| == |south| && AllPlain(north) && AllPlain(south)
    ensures ReadValue(EnumText(north, south)) == Some((Obj(PairTerms(north, south)), []))
  {
    hide ReadMembers, EnumPairs;
    EnumMembers(north, south);
    assert [CLOSE_BRACE] + [] == [CLOSE_BRACE];
    if north == [] {
      assert PairTerms(north, south) == [];
    } else {
      ReadPairs(north, south, []);
    }
  }

  /** What is read of the text of an enumeration is decided by its members. */
  lemma {:induction false} EnumMembers(north: seq<bytes>, south: seq<bytes>)
    requires |north| == |south|
    ensures var s := EnumText(north, south);
            if north == [] then ReadValue(s) == Some((Obj([]), []))
            else ReadValue(s) == match ReadMembers(EnumPairs(north, south, [CLOSE_BRACE]))
                                 case None => None case Some(r) => Some((Obj(r.0), r.1))
  {
    hide ReadMembers, PutText, PutPair;
    var s := EnumText(north, south);
    NoSkip(s);
    var inner := EnumPairs(north, south, [CLOSE_BRACE]);
    assert s[1..] == inner;
    if north == [] {
      NoSkip(inner);
      assert inner[1..] == [];
    } else {
      PairsStart(north, south);
      NoSkip(inner);
    }
  }

  lemma {:induction false} PairsStart(north: seq<bytes>, south: seq<bytes>)
    requires |north| == |south| > 0
    ensures EnumPairs(north, south, [CLOSE_BRACE]) != [] && EnumPairs(north, south, [CLOSE_BRACE])[0] == QUOTE
  {
    hide PutText;
  }

  /** Quotes and backslashes. */
  function Specials(s: text): nat {
    if s == [] then 0 else (if s[0] == QUOTE || s[0] == BACKSLASH then 1 else 0) + Specials(s[1..])
  }

  lemma {:induction false} CostIsMore(s: text)
    ensures Cost(s) == Weight(s) + Specials(s)
    ensures Specials(s) == 0 ==> forall i :: 0 <= i < |s| ==> s[i] != QUOTE && s[i] != BACKSLASH
  {
    if s != [] {
      CostIsMore(s[1..]);
      assert s == [s[0]] + s[1..];
    }
  }

  predicate AllStringMembers(ms: seq<(text, Term)>) {
    forall i :: 0 <= i < |ms| ==> ms[i].1.Str?
  }

  function MembersCost(ms: seq<(text, Term)>): nat
    requires AllStringMembers(ms)
  {
    if ms == [] then 0 else Cost(ms[0].0) + Cost(ms[0].1.chars) + 6 + MembersCost(ms[1..])
  }

  lemma {:induction false} ReadKeyCost(s: text)
    requires ReadKey(s).Some?
    ensures var (k, r) := ReadKey(s).value; Weight(s) >= Cost(k) + 3 + Weight(r)
  {
    hide ReadChars, Weight, High, SkipSpace, Cost;
    CountSkipped(s);
    var s1 := SkipSpace(s);
    CountOne(s1);
    ReadCharsCost(s1[1..]);
    var (k, r) := ReadChars(s1[1..]).value;
    CountSkipped(r);
    CountOne(SkipSpace(r));
  }

  lemma {:induction false} ReadMembersCost(s: text)
    requires ReadMembers(s).Some? && AllStringMembers(ReadMembers(s).value.0)
    ensures var (ms, r) := ReadMembers(s).value; Weight(s) >= MembersCost(ms) + Weight(r)
    decreases |s|
  {
    hide ReadKey, ReadValue, Weight, High, SkipSpace, Cost;
    var ms := ReadMembers(s).value.0;
    var (k, r) := ReadKey(s).value;
    var (t, r1) := ReadValue(r).value;
    assert ms[0] == (k, t);
    ReadKeyCost(s);
    ReadStringCost(r);
    CountSkipped(r1);
    var s1 := SkipSpace(r1);
    CountOne(s1);
    if s1[0] == COMMA {
      var others := ReadMembers(s1[1..]).value.0;
      assert ms == [(k, t)] + others && ms[1..] == others;
      assert forall j :: 0 <= j < |others| ==> others[j] == ms[j + 1];
      ReadMembersCost(s1[1..]);
    } else {
      assert ms[1..] == [];
    }
  }

  function SpecialsIn(list: seq<bytes>): nat {
    if list == [] then 0 else Specials(list[0]) + SpecialsIn(list[1..])
  }

  lemma {:induction false} CountPair(n: bytes, s: bytes, rest: bytes)
    ensures Weight(PutPair(n, s, rest)) == Weight(n) + Weight(s) + 5 + Weight(rest)
  {
    hide Weight, High;
    var inner := [COLON] + PutBytes(s, rest);
    CountPut(n, inner);
    CountPut(s, rest);
    CountOne(inner);
    assert inner[1..] == PutBytes(s, rest);
  }

  lemma {:induction false} CountPut(s: bytes, rest: bytes)
    ensures Weight(PutBytes(s, rest)) == Weight(s) + 2 + Weight(rest)
  {
    hide Weight, High;
    var p := PutBytes(s, rest);
    CountOne(p);
    assert p[1..] == s + ([QUOTE] + rest);
    CountConcat(s, [QUOTE] + rest);
    CountOne([QUOTE] + rest);
    assert ([QUOTE] + rest)[1..] == rest;
  }

  lemma {:induction false} CountPairs(north: seq<bytes>, south: seq<bytes>)
    requires |north| == |south| > 0
    ensures AllStringMembers(PairTerms(north, south))
    ensures Weight(EnumPairs(north, south, [CLOSE_BRACE])) + SpecialsIn(north) + SpecialsIn(south)
         == MembersCost(PairTerms(north, south))
    decreases |north|
  {
    hide Weight, High, PutPair, Cost, Specials;
    var ms := PairTerms(north, south);
    var sep: bytes := if |north| == 1 then [] else SEPARATOR;
    var others := sep + EnumPairs(north[1..], south[1..], [CLOSE_BRACE]);
    CountPair(north[0], south[0], others);
    CostIsMore(north[0]);
    CostIsMore(south[0]);
    CountConcat(sep, EnumPairs(north[1..], south[1..], [CLOSE_BRACE]));
    SeparatorCounts();
    assert ms[1..] == PairTerms(north[1..], south[1..]);
    if |north| == 1 {
      assert north[1..] == [] && south[1..] == [] && PairTerms(north[1..], south[1..]) == [];
    } else {
      CountPairs(north[1..], south[1..]);
    }
  }

  lemma SeparatorCounts()
    ensures Weight([]) == 0 && Weight([CLOSE_BRACE]) == 1 && Weight(SEPARATOR) == 1
  {
    assert SEPARATOR[1..] == [0x20] && [0x20][1..] == [] && [CLOSE_BRACE][1..] == [];
    assert Weight([0x20]) == 0;
  }

  lemma {:induction false} PlainOrControl(list: seq<bytes>, i: nat)
    requires i < |list| && SpecialsIn(list) == 0
    ensures forall k :: 0 <= k < |list[i]| ==> list[i][k] != QUOTE && list[i][k] != BACKSLASH
  {
    hide Specials;
    if i == 0 {
      CostIsMore(list[0]);
    } else {
      PlainOrControl(list[1..], i - 1);
    }
  }

  lemma {:induction false} ControlUnread(s: text, rest: text)
    requires !Plain(s) && forall k :: 0 <= k < |s| ==> s[k] != QUOTE && s[k] != BACKSLASH
    ensures ReadChars(s + [QUOTE] + rest) == None
    decreases |s|
  {
    var all := s + [QUOTE] + rest;
    if s[0] >= 0x20 {
      assert all[1..] == s[1..] + [QUOTE] + rest;
      ControlUnread(s[1..], rest);
    }
  }

  lemma {:induction false} ControlStopsPair(n: bytes, s: bytes, rest: bytes)
    requires forall k :: 0 <= k < |n| ==> n[k] != QUOTE && n[k] != BACKSLASH
    requires forall k :: 0 <= k < |s| ==> s[k] != QUOTE && s[k] != BACKSLASH
    requires !Plain(n) || !Plain(s)
    ensures ReadMembers(PutPair(n, s, rest)) == None
  {
    hide ReadChars, Plain;
    var p := PutPair(n, s, rest);
    if !Plain(n) {
      NoSkip(p);
      assert p[1..] == n + [QUOTE] + ([COLON] + PutBytes(s, rest));
      ControlUnread(n, [COLON] + PutBytes(s, rest));
    } else {
      ReadPair(n, s, rest);
      var v := PutText(s, rest);
      NoSkip(v);
      assert v[1..] == s + [QUOTE] + rest;
      ControlUnread(s, rest);
    }
  }

  lemma {:induction false} ControlStopsPairs(north: seq<bytes>, south: seq<bytes>, i: nat, rest: bytes)
    requires |north| == |south| && i < |north| && SpecialsIn(north) == 0 && SpecialsIn(south) == 0
    requires !Plain(north[i]) || !Plain(south[i])
    ensures ReadMembers(EnumPairs(north, south, rest)) == None
    decreases |north|
  {
    hide ReadKey, ReadValue, Plain, Specials, PutPair, PutText;
    PlainOrControl(north, 0);
    PlainOrControl(south, 0);
    var others := (if |north| == 1 then [] else SEPARATOR) + EnumPairs(north[1..], south[1..], rest);
    if !Plain(north[0]) || !Plain(south[0]) {
      ControlStopsPair(north[0], south[0], others);
    } else {
      ReadPair(north[0], south[0], others);
      NoSkip(others);
      assert others[1..] == [0x20] + EnumPairs(north[1..], south[1..], rest);
      ControlStopsPairs(north[1..], south[1..], i - 1, rest);
      ReadMembersAfterSpace(EnumPairs(north[1..], south[1..], rest));
    }
  }

  /** The text of an enumeration is read as its pairs exactly if all its strings are plain. */
  lemma {:induction false} EnumReadIff(north: seq<bytes>, south: seq<bytes>)
    requires |north| == |south|
    ensures ReadValue(EnumText(north, south)) == Some((Obj(PairTerms(north, south)), [])) <==> AllPlain(north) && AllPlain(south)
  {
    hide ReadValue, EnumText, Plain, ReadMembers, EnumPairs, Weight, MembersCost, SpecialsIn;
    if AllPlain(north) && AllPlain(south) {
      ReadEnumText(north, south);
    } else if ReadValue(EnumText(north, south)) == Some((Obj(PairTerms(north, south)), [])) {
      EnumMembers(north, south);
      var pairs := EnumPairs(north, south, [CLOSE_BRACE]);
      CountPairs(north, south);
      ReadMembersCost(pairs);
      var i :| 0 <= i < |north| && (!Plain(north[i]) || !Plain(south[i]));
      ControlStopsPairs(north, south, i, [CLOSE_BRACE]);
    }
  }

  /** The decoded object: a later member replaces an earlier one of the same name. */
  function Decoded(ms: seq<(text, Term)>): map<text, Term> {
    if ms == [] then map[] else Decoded(ms[..|ms| - 1])[ms[|ms| - 1].0 := ms[|ms| - 1].1]
  }

  /**
   Conversion by an enumeration, looking through its members in whatever order they come. Members
   that are not strings are passed over.
   */
  method EnumConversion(enumObj: map<text, Term>, north2South: bool, inValue: text) returns (out: Option<text>)
    ensures north2South ==>
              out == if inValue in enumObj && enumObj[inValue].Str? then Some(enumObj[inValue].chars) else None
    ensures !north2South ==>
              if exists k :: k in enumObj && enumObj[k] == Str(inValue)
              then out.Some? && out.value in enumObj && enumObj[out.value] == Str(inValue)
              else out == None
  {
    var rest := enumObj.Keys;
    while rest != {}
      invariant rest <= enumObj.Keys
      invariant forall k :: k in enumObj && k !in rest && enumObj[k].Str? ==>
                  if north2South then k != inValue else enumObj[k] != Str(inValue)
      decreases |rest|
    {
      var k :| k in rest;
      if enumObj[k].Str? {
        if north2South {
          if k == inValue {
            return Some(enumObj[k].chars);
          }
        } else if enumObj[k].chars == inValue {
          return Some(k);
        }
      }
      rest := rest - {k};
    }
    return None;
  }

  lemma {:induction false} DecodedPairs(north: seq<bytes>, south: seq<bytes>)
    requires |north| == |south| && forall i, j :: 0 <= i < j < |north| ==> north[i] != north[j]
    ensures var m := Decoded(PairTerms(north, south));
            && (forall i :: 0 <= i < |north| ==> north[i] in m && m[north[i]] == Str(south[i]))
            && (forall k :: k in m ==> exists i :: 0 <= i < |north| && north[i] == k)
    decreases |north|
  {
    if north != [] {
      var n, s := north[..|north| - 1], south[..|south| - 1];
      var ms := PairTerms(north, south);
      assert ms[..|ms| - 1] == PairTerms(n, s);
      DecodedPairs(n, s);
      var before := Decoded(PairTerms(n, s));
      assert Decoded(ms) == before[north[|n|] := Str(south[|n|])];
      forall i | 0 <= i < |n|
        ensures north[i] in before && before[north[i]] == Str(south[i])
      {
        assert n[i] == north[i] && s[i] == south[i];
      }
      forall k | k in before
        ensures exists i :: 0 <= i < |north| && north[i] == k
      {
        var i :| 0 <= i < |n| && n[i] == k;
        assert north[i] == k;
      }
    }
  }

  /** North to south and back, through the text of the entry: the value that went in comes out. */
  method EnumThereAndBack(north: seq<bytes>, south: seq<bytes>, i: nat) returns (there: Option<text>, back: Option<text>)
    requires |north| == |south| && i < |north|
    requires AllPlain(north) && AllPlain(south)
    requires forall j, k :: 0 <= j < k < |north| ==> north[j] != north[k] && south[j] != south[k]
    ensures there == Some(south[i]) && back == Some(north[i])
  {
    hide ReadValue, EnumText, Decoded, Plain;
    var entry := BuildEnumText(north, south);
    ReadEnumText(north, south);
    DecodedPairs(north, south);
    var enumObj := Decoded(ReadValue(entry).value.0.members);
    there := EnumConversion(enumObj, true, north[i]);
    back := EnumConversion(enumObj, false, south[i]);
    assert enumObj[north[i]] == Str(south[i]);
    var k :| 0 <= k < |north| && north[k] == back.value;
    assert Str(south[k]) == Str(south[i]);
  }

  // ----- linear scales -----

  datatype Coefficients = Coefficients(a: real, b: real)

  function Scale(c: Coefficients, x: real): real { c.a * x + c.b }

  function Unscale(c: Coefficients, y: real): real
    requires c.a != 0.0
  {
    (y - c.b) / c.a
  }

  /** North to south is y = A x + B; the other way divides, and fails for A = 0. */
  function LinearConversion(c: Coefficients, north2South: bool, x: real): Option<real> {
    if north2South then Some(Scale(c, x))
    else if c.a == 0.0 then None
    else Some(Unscale(c, x))
  }

  lemma DivideBack(a: real, x: real)
    requires a != 0.0
    ensures (a * x) / a == x
  {
  }

  lemma UnscaleScale(c: Coefficients, x: real)
    requires c.a != 0.0
    ensures Unscale(c, Scale(c, x)) == x
  {
    assert Scale(c, x) - c.b == c.a * x;
    DivideBack(c.a, x);
  }

  /** There and back is the identity for A other than 0; for A = 0 there is no way back. */
  lemma LinearThereAndBack(c: Coefficients, x: real)
    ensures c.a != 0.0 ==> LinearConversion(c, false, LinearConversion(c, true, x).value) == Some(x)
    ensures c.a == 0.0 ==> LinearConversion(c, false, LinearConversion(c, true, x).value) == None
  {
    if c.a != 0.0 {
      UnscaleScale(c, x);
    }
  }

  function Inverted(c: Coefficients): Coefficients
    requires c.a != 0.0
  {
    Coefficients(1.0 / c.a, -c.b / c.a)
  }

  /** The inverted coefficients convert the other way round, and inverting twice gives them back. */
  lemma InvertedIsInverse(c: Coefficients, x: real)
    requires c.a != 0.0
    ensures Inverted(c).a != 0.0 && Inverted(Inverted(c)) == c
    ensures Scale(Inverted(c), Scale(c, x)) == x
  {
    var p, q := Inverted(c).a, Inverted(c).b;
    assert p * c.a == 1.0;
    assert 1.0 / p == c.a;
    assert q == -(c.b * p);
    DivideBack(p, c.b);
    assert -q / p == c.b;
    assert p * Scale(c, x) == (p * c.a) * x + p * c.b;
  }

  /** A unit pair's coefficients after the requests so far; a reversed request inverts them in place. */
  function AfterRequests(c: Coefficients, reversed: seq<bool>): (r: Coefficients)
    requires c.a != 0.0
    ensures r.a != 0.0
    decreases |reversed|
  {
    if reversed == [] then c
    else
      var before := AfterRequests(c, reversed[..|reversed| - 1]);
      InvertedIsInverse(before, 0.0);
      if reversed[|reversed| - 1] then Inverted(before) else before
  }

  function ReversedCount(reversed: seq<bool>): nat {
    if reversed == [] then 0 else ReversedCount(reversed[..|reversed| - 1]) + if reversed[|reversed| - 1] then 1 else 0
  }

  /** The coefficients alternate with every reversed request. */
  lemma {:induction false} Alternates(c: Coefficients, reversed: seq<bool>)
    requires c.a != 0.0
    ensures AfterRequests(c, reversed) == if ReversedCount(reversed) % 2 == 0 then c else Inverted(c)
    decreases |reversed|
  {
    if reversed != [] {
      Alternates(c, reversed[..|reversed| - 1]);
      InvertedIsInverse(c, 0.0);
    }
  }

  /**
   The entry handed out for a request is the right one for its direction exactly when the number of
   reversed requests before it is even (unless a scale is its own inverse).
   */
  lemma {:induction false} RightDirectionIff(c: Coefficients, before: seq<bool>, reversed: bool)
    requires c.a != 0.0 && Inverted(c) != c
    ensures AfterRequests(c, before + [reversed]) == (if reversed then Inverted(c) else c)
       <==> ReversedCount(before) % 2 == 0
  {
    var all := before + [reversed];
    assert all[..|all| - 1] == before;
    Alternates(c, before);
    InvertedIsInverse(c, 0.0);
  }
}
