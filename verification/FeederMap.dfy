/**
 The signal map between two domains: the conversion tool pairs the rows of a mapping list, orders
 them by name and writes them to a file; the feeder reads the file and looks names up in it.
 */
module FeederMap {
  import opened ByteStrings
  import opened TreeFormat

  const MAXUINT16 := 65535

  type uint16 = n: int | 0 <= n < 65536
  type int8 = n: int | -128 <= n < 128

  datatype Entry = Entry(mapIndex: uint16, name: bytes, kind: int8, dataType: int8, convertIndex: uint16)

  // ----- byte order of names -----

  predicate Less(a: bytes, b: bytes) {
    if b == [] then false
    else if a == [] then true
    else a[0] < b[0] || (a[0] == b[0] && Less(a[1..], b[1..]))
  }

  /** The order of bytes: the first difference decides, and a name comes before its continuations. */
  lemma {:induction false} LessIff(a: bytes, b: bytes)
    ensures Less(a, b)
       <==> exists k :: 0 <= k <= |a| && k < |b| && a[..k] == b[..k] && (k == |a| || a[k] < b[k])
  {
    if a == [] {
      if b != [] {
        assert a[..0] == b[..0];
      }
    } else if b != [] && a[0] == b[0] {
      LessIff(a[1..], b[1..]);
      if Less(a, b) {
        var k :| 0 <= k <= |a[1..]| && k < |b[1..]| && a[1..][..k] == b[1..][..k] && (k == |a[1..]| || a[1..][k] < b[1..][k]);
        assert a[..k + 1] == [a[0]] + a[1..][..k] && b[..k + 1] == [b[0]] + b[1..][..k];
      }
      if k :| 0 <= k <= |a| && k < |b| && a[..k] == b[..k] && (k == |a| || a[k] < b[k]) {
        assert k > 0;
        assert a[1..][..k - 1] == a[..k][1..] && b[1..][..k - 1] == b[..k][1..];
      }
    } else if b != [] {
      if a[0] < b[0] {
        assert a[..0] == b[..0];
      }
      forall k | 0 < k <= |a| && k < |b| ensures a[..k] != b[..k] {
        assert a[..k][0] == a[0] && b[..k][0] == b[0];
      }
    }
  }

  lemma {:induction false} LessTotal(a: bytes, b: bytes)
    ensures Less(a, b) || Less(b, a) || a == b
    ensures !(Less(a, b) && Less(b, a)) && (a == b ==> !Less(a, b))
  {
    if a != [] && b != [] && a[0] == b[0] {
      LessTotal(a[1..], b[1..]);
      assert a == [a[0]] + a[1..] && b == [b[0]] + b[1..];
    }
  }

  lemma {:induction false} LessTransitive(a: bytes, b: bytes, c: bytes)
    requires Less(a, b) && Less(b, c)
    ensures Less(a, c)
  {
    if a != [] && a[0] == b[0] == c[0] {
      LessTransitive(a[1..], b[1..], c[1..]);
    }
  }

  /** Names in strictly increasing order, so that all are different. */
  ghost predicate Increasing(es: seq<Entry>) {
    forall i, j :: 0 <= i < j < |es| ==> Less(es[i].name, es[j].name)
  }

  lemma {:induction false} SameName(es: seq<Entry>, i: nat, j: nat)
    requires Increasing(es) && i < |es| && j < |es| && es[i].name == es[j].name
    ensures i == j
  {
    LessTotal(es[i].name, es[j].name);
  }

  // ----- pairing -----

  /** Index of the first other entry with the same map index, or 65535. */
  function CorrespondingFrom(es: seq<Entry>, i: nat, j: nat): (r: nat)
    requires i < |es| && j <= |es|
    ensures r == MAXUINT16 || (j <= r < |es| && r != i && es[r].mapIndex == es[i].mapIndex)
    ensures forall k :: j <= k < |es| && k < r && k != i ==> es[k].mapIndex != es[i].mapIndex
    decreases |es| - j
  {
    if j == |es| then MAXUINT16
    else if es[j].mapIndex == es[i].mapIndex && j != i then j
    else CorrespondingFrom(es, i, j + 1)
  }

  function Corresponding(es: seq<Entry>, i: nat): nat
    requires i < |es|
  {
    CorrespondingFrom(es, i, 0)
  }

  method GetCorrespondingIndex(i: nat, es: seq<Entry>) returns (r: nat)
    requires i < |es|
    ensures r == Corresponding(es, i)
  {
    var j := 0;
    while j < |es|
      invariant 0 <= j <= |es| && Corresponding(es, i) == CorrespondingFrom(es, i, j)
    {
      if es[j].mapIndex == es[i].mapIndex && j != i {
        return j;
      }
      j := j + 1;
    }
    return MAXUINT16;
  }

  /** Every entry has a counterpart at an index below 65535. */
  ghost predicate AllCorrespond(es: seq<Entry>) {
    forall i :: 0 <= i < |es| ==> Corresponding(es, i) < MAXUINT16
  }

  function Reordered(es: seq<Entry>): (r: seq<Entry>)
    requires AllCorrespond(es)
    ensures |r| == |es| && forall i :: 0 <= i < |es| ==> r[i] == es[i].(mapIndex := Corresponding(es, i))
  {
    seq(|es|, i requires 0 <= i < |es| => es[i].(mapIndex := Corresponding(es, i)))
  }

  /** Replaces each map index by the index of the counterpart, in place; nothing changes if one is missing. */
  method ReorderMapIndex(a: array<Entry>)
    requires a.Length <= MAXUINT16
    modifies a
    ensures a[..] == if AllCorrespond(old(a[..])) then Reordered(old(a[..])) else old(a[..])
  {
    ghost var es := a[..];
    var reorder: seq<nat> := [];
    var i := 0;
    while i < a.Length
      invariant 0 <= i <= a.Length && a[..] == es && |reorder| == i
      invariant forall k :: 0 <= k < i ==> reorder[k] == Corresponding(es, k) < MAXUINT16
    {
      var r := GetCorrespondingIndex(i, a[..]);
      if r == MAXUINT16 {
        return;
      }
      reorder := reorder + [r];
      i := i + 1;
    }
    i := 0;
    while i < a.Length
      invariant 0 <= i <= a.Length
      invariant forall k :: 0 <= k < a.Length ==> a[k] == if k < i then es[k].(mapIndex := reorder[k]) else es[k]
    {
      a[i] := a[i].(mapIndex := reorder[i]);
      i := i + 1;
    }
  }

  // ----- the mapping list -----

  /** One row of the mapping list: its number and the entries of its two signals. */
  datatype Row = Row(number: uint16, north: Entry, south: Entry)

  ghost predicate ValidRow(r: Row) {
    r.north.mapIndex == r.number && r.south.mapIndex == r.number
  }

  /** The two entries of each row, under the row's number. */
  ghost predicate IsTableOf(es: seq<Entry>, rows: seq<Row>) {
    && (forall i :: 0 <= i < |rows| ==> ValidRow(rows[i]) && rows[i].north in es && rows[i].south in es)
    && (forall e :: e in es ==> exists i :: 0 <= i < |rows| && (e == rows[i].north || e == rows[i].south))
    && (forall i, j :: 0 <= i < j < |rows| ==> rows[i].number != rows[j].number)
    && (forall i :: 0 <= i < |rows| ==> rows[i].north.name != rows[i].south.name)
    && Increasing(es) && |es| <= MAXUINT16
  }

  /** The entry paired with `e` in the mapping list. */
  ghost predicate Partners(rows: seq<Row>, e: Entry, f: Entry) {
    exists i :: 0 <= i < |rows| && ((e == rows[i].north && f == rows[i].south) || (e == rows[i].south && f == rows[i].north))
  }

  lemma {:induction false} RowOf(es: seq<Entry>, rows: seq<Row>, e: Entry) returns (i: nat, f: Entry)
    requires IsTableOf(es, rows) && e in es
    ensures i < |rows| && (e == rows[i].north || e == rows[i].south) && e.mapIndex == rows[i].number
    ensures f in es && f == (if e == rows[i].north then rows[i].south else rows[i].north)
    ensures f.mapIndex == e.mapIndex && f.name != e.name && Partners(rows, e, f)
  {
    i :| 0 <= i < |rows| && (e == rows[i].north || e == rows[i].south);
    f := if e == rows[i].north then rows[i].south else rows[i].north;
  }

  /** In the ordered table, the counterpart is the partner from the mapping list, both ways. */
  lemma {:induction false} CorrespondingIsPartner(es: seq<Entry>, rows: seq<Row>, a: nat)
    requires IsTableOf(es, rows) && a < |es|
    ensures var b := Corresponding(es, a);
            && b < |es| && b != a && Partners(rows, es[a], es[b]) && Corresponding(es, b) == a
  {
    hide IsTableOf, Partners;
    var b := CounterpartAt(es, rows, a);
    var c := Corresponding(es, a);
    OnlyCounterpart(es, rows, a, b, c);
    var d := Corresponding(es, b);
    OnlyCounterpart(es, rows, b, a, d);
  }

  /** Where the partner is. */
  lemma {:induction false} CounterpartAt(es: seq<Entry>, rows: seq<Row>, a: nat) returns (b: nat)
    requires IsTableOf(es, rows) && a < |es|
    ensures b < |es| && b != a && es[b].mapIndex == es[a].mapIndex && Partners(rows, es[a], es[b])
    ensures |es| <= MAXUINT16
  {
    var i, f := RowOf(es, rows, es[a]);
    b :| 0 <= b < |es| && es[b] == f;
  }

  lemma {:induction false} OnlyCounterpart(es: seq<Entry>, rows: seq<Row>, a: nat, b: nat, c: nat)
    requires IsTableOf(es, rows) && a < |es| && b < |es| && a != b && es[b].mapIndex == es[a].mapIndex
    requires c == Corresponding(es, a)
    ensures c == b
  {
    assert c < |es|;
    var i, f := RowOf(es, rows, es[a]);
    var j, g := RowOf(es, rows, es[b]);
    var k, h := RowOf(es, rows, es[c]);
    assert i == j == k;
    assert es[a] != es[b] && es[a] != es[c] by { Distinct(es, a, b); Distinct(es, a, c); }
    assert es[b] == es[c];
    SameName(es, b, c);
  }

  lemma {:induction false} Distinct(es: seq<Entry>, a: nat, b: nat)
    requires Increasing(es) && a < |es| && b < |es| && a != b
    ensures es[a] != es[b]
  {
    if es[a] == es[b] {
      SameName(es, a, b);
      assert false;
    }
  }

  // ----- the file -----

  function Put16Value(n: uint16, rest: bytes): bytes {
    [n % 256, n / 256] + rest
  }

  function ToUint8(n: int8): byte { if n < 0 then n + 256 else n }
  function ToInt8(b: byte): int8 { if b >= 128 then b - 256 else b }

  function EncodeEntry(e: Entry, rest: bytes): bytes {
    Put16Value(e.mapIndex, Put8(e.name, [ToUint8(e.kind), ToUint8(e.dataType)] + Put16Value(e.convertIndex, rest)))
  }

  function EncodeAll(es: seq<Entry>, rest: bytes): bytes {
    if es == [] then rest else EncodeEntry(es[0], EncodeAll(es[1..], rest))
  }

  function ReadElement(s: bytes): (r: Option<(Entry, bytes)>)
    ensures r.Some? ==> |r.value.1| < |s|
  {
    if |s| < 2 then None
    else
      var name :- Get8(s[2..]);
      var t := name.1;
      if |t| < 4 then None
      else Some((Entry(Uint16(s[0], s[1]), name.0, ToInt8(t[0]), ToInt8(t[1]), Uint16(t[2], t[3])), t[4..]))
  }

  /** The bytes of an entry: two numbers of two bytes, the lower one first, around the name and two small ones. */
  function EntryBytes(e: Entry): bytes
    requires |e.name| < 256
  {
    [e.mapIndex % 256, e.mapIndex / 256, |e.name|] + e.name
    + [(e.kind + 256) % 256, (e.dataType + 256) % 256, e.convertIndex % 256, e.convertIndex / 256]
  }

  /** An entry is read exactly from its bytes, and these are what is written. */
  lemma {:induction false} EntryIff(s: bytes, e: Entry, rest: bytes)
    ensures ReadElement(s) == Some((e, rest)) <==> |e.name| < 256 && s == EntryBytes(e) + rest
    ensures |e.name| < 256 ==> EncodeEntry(e, rest) == EntryBytes(e) + rest
  {
    if |e.name| < 256 {
      WrittenEntry(e, rest);
      ReadBack(e, rest);
    }
    if ReadElement(s) == Some((e, rest)) {
      ParsedEntry(s);
    }
    hide ReadElement, EncodeEntry, EntryBytes;
  }

  lemma {:induction false} ParsedEntry(s: bytes)
    requires ReadElement(s).Some?
    ensures |ReadElement(s).value.0.name| < 256 && s == EntryBytes(ReadElement(s).value.0) + ReadElement(s).value.1
  {
    var (e, rest) := ReadElement(s).value;
    var t := Get8(s[2..]).value.1;
    assert s[2..] == [|e.name|] + e.name + t by { NameFirst(s[2..]); }
    NumbersBack(s[0], s[1]);
    NumbersBack(t[2], t[3]);
    SmallBack(t[0]);
    SmallBack(t[1]);
    hide Get8, Uint16, ToInt8;
    Pieces(s, s[0], s[1], e.name, t, rest);
  }

  lemma NumbersBack(lo: byte, hi: byte)
    ensures Uint16(lo, hi) % 256 == lo && Uint16(lo, hi) / 256 == hi
  {
  }

  lemma SmallBack(b: byte)
    ensures (ToInt8(b) + 256) % 256 == b
  {
  }

  lemma Pieces(s: bytes, a: byte, b: byte, name: bytes, t: bytes, rest: bytes)
    requires |s| >= 2 && s[0] == a && s[1] == b && |name| < 256 && s[2..] == [|name|] + name + t
    requires |t| >= 4 && rest == t[4..]
    ensures s == [a, b, |name|] + name + [t[0], t[1], t[2], t[3]] + rest
  {
    assert t == [t[0], t[1], t[2], t[3]] + rest;
    assert s == [a, b] + s[2..];
  }

  lemma {:induction false} NameFirst(s: bytes)
    requires Get8(s).Some?
    ensures s == [|Get8(s).value.0|] + Get8(s).value.0 + Get8(s).value.1
  {
    var n: int := s[0];
    assert s == [s[0]] + s[1..1 + n] + s[1 + n..];
  }

  lemma {:induction false} WrittenEntry(e: Entry, rest: bytes)
    requires |e.name| < 256
    ensures EncodeEntry(e, rest) == EntryBytes(e) + rest
  {
  }

  lemma {:induction false} ReadBack(e: Entry, rest: bytes)
    requires |e.name| < 256
    ensures ReadElement(EncodeEntry(e, rest)) == Some((e, rest))
  {
    hide Get8, Put8;
    var tail := [ToUint8(e.kind), ToUint8(e.dataType)] + Put16Value(e.convertIndex, rest);
    var s := EncodeEntry(e, rest);
    assert s[2..] == Put8(e.name, tail);
    GetPut8(e.name, tail);
    assert tail[4..] == rest;
  }

  /** Entries up to the end of the file, a broken entry or one without a name. */
  function ReadAll(s: bytes): seq<Entry>
    decreases |s|
  {
    match ReadElement(s)
    case None => []
    case Some(r) => if r.0.name == [] then [] else [r.0] + ReadAll(r.1)
  }

  ghost predicate Storable(e: Entry) { 0 < |e.name| <= 255 }

  lemma {:induction false} ReadEncodedEntry(e: Entry, rest: bytes)
    requires Storable(e)
    ensures ReadElement(EncodeEntry(e, rest)) == Some((e, rest))
  {
    ReadBack(e, rest);
  }

  /** The entries are read back, followed by whatever can be read of what lies behind them. */
  lemma {:induction false} ReadEncoded(es: seq<Entry>, tail: bytes)
    requires forall i :: 0 <= i < |es| ==> Storable(es[i])
    ensures ReadAll(EncodeAll(es, tail)) == es + ReadAll(tail)
    decreases |es|
  {
    hide ReadElement, EncodeEntry;
    if es == [] {
      assert [] + ReadAll(tail) == ReadAll(tail);
    } else {
      ReadEncodedEntry(es[0], EncodeAll(es[1..], tail));
      ReadEncoded(es[1..], tail);
      assert [es[0]] + (es[1..] + ReadAll(tail)) == es + ReadAll(tail);
    }
  }

  lemma {:induction false} EncodeAllAppend(es: seq<Entry>, tail: bytes)
    ensures EncodeAll(es, tail) == EncodeAll(es, []) + tail
  {
    hide EncodeEntry;
    if es != [] {
      EncodeAllAppend(es[1..], tail);
      EncodeEntryAppend(es[0], EncodeAll(es[1..], tail));
      EncodeEntryAppend(es[0], EncodeAll(es[1..], []));
    }
  }

  /** Writes the entries over an older file, which is not cut off. */
  method WriteArrayToFile(a: array<Entry>, oldFile: bytes) returns (file: bytes)
    ensures file == EncodeAll(a[..], Leftover(oldFile, EncodeAll(a[..], [])))
  {
    file := [];
    var i := 0;
    assert a[0..] == a[..];
    while i < a.Length
      invariant 0 <= i <= a.Length
      invariant file + EncodeAll(a[i..], []) == EncodeAll(a[..], [])
    {
      assert a[i..][1..] == a[i + 1..];
      EncodeEntryAppend(a[i], EncodeAll(a[i + 1..], []));
      file := file + EncodeEntry(a[i], []);
      i := i + 1;
    }
    assert file + EncodeAll(a[i..], []) == file;
    EncodeAllAppend(a[..], Leftover(oldFile, file));
    file := file + Leftover(oldFile, file);
  }

  lemma {:induction false} EncodeEntryAppend(e: Entry, rest: bytes)
    ensures EncodeEntry(e, rest) == EncodeEntry(e, []) + rest
  {
    var n := Put16Value(e.convertIndex, []);
    assert Put16Value(e.convertIndex, rest) == n + rest;
    var k := [ToUint8(e.kind), ToUint8(e.dataType)] + n;
    assert [ToUint8(e.kind), ToUint8(e.dataType)] + (n + rest) == k + rest;
    Put8Append(e.name, k, rest);
  }

  // ----- the feeder -----

  ghost predicate Ordered(es: seq<Entry>) {
    forall i, j :: 0 <= i < j < |es| ==> !Less(es[j].name, es[i].name)
  }

  /** Inserts into an ordered sequence, behind the names that are not larger. */
  function InsertOrdered(e: Entry, es: seq<Entry>): seq<Entry> {
    if es == [] || Less(e.name, es[0].name) then [e] + es else [es[0]] + InsertOrdered(e, es[1..])
  }

  lemma {:induction false} InsertOrderedKeeps(e: Entry, es: seq<Entry>)
    requires Ordered(es)
    ensures Ordered(InsertOrdered(e, es)) && multiset(InsertOrdered(e, es)) == multiset(es) + multiset{e}
    decreases |es|
  {
    hide Less;
    if es == [] || Less(e.name, es[0].name) {
      forall j | 0 <= j < |es|
        ensures !Less(es[j].name, e.name)
      {
        LessTotal(es[j].name, es[0].name);
        NotLessChain(e.name, es[0].name, es[j].name);
      }
    } else {
      InsertOrderedKeeps(e, es[1..]);
      var r := InsertOrdered(e, es[1..]);
      assert es == [es[0]] + es[1..];
      forall j | 0 <= j < |r|
        ensures !Less(r[j].name, es[0].name)
      {
        assert r[j] in multiset(r);
        LessTotal(e.name, es[0].name);
      }
    }
  }

  lemma {:induction false} NotLessChain(a: bytes, b: bytes, c: bytes)
    requires Less(a, b) && !Less(c, b)
    ensures !Less(c, a)
  {
    if Less(c, a) {
      LessTransitive(c, a, b);
      assert false;
    }
  }

  method SortByName(es: seq<Entry>) returns (r: seq<Entry>)
    ensures Ordered(r) && multiset(r) == multiset(es)
  {
    r := [];
    var i := 0;
    while i < |es|
      invariant 0 <= i <= |es| && Ordered(r) && multiset(r) == multiset(es[..i])
    {
      assert es[..i + 1] == es[..i] + [es[i]];
      InsertOrderedKeeps(es[i], r);
      r := InsertOrdered(es[i], r);
      i := i + 1;
    }
    assert es[..i] == es;
  }

  /** Sorting a file that is already in strict order changes nothing. */
  lemma {:induction false} SortedIsSame(es: seq<Entry>, r: seq<Entry>)
    requires Increasing(es) && Ordered(r) && multiset(r) == multiset(es)
    ensures r == es
    decreases |es|
  {
    hide Increasing, Ordered;
    assert |r| == |multiset(r)| && |es| == |multiset(es)|;
    if es != [] {
      FirstIsSame(es, r);
      TailsInOrder(es, r);
      TailMultiset(r);
      TailMultiset(es);
      SortedIsSame(es[1..], r[1..]);
    }
  }

  lemma {:induction false} TailMultiset(es: seq<Entry>)
    requires es != []
    ensures multiset(es[1..]) == multiset(es) - multiset{es[0]} && es == [es[0]] + es[1..]
  {
    assert es == [es[0]] + es[1..];
  }

  lemma {:induction false} TailsInOrder(es: seq<Entry>, r: seq<Entry>)
    requires Increasing(es) && Ordered(r) && es != [] && r != []
    ensures Increasing(es[1..]) && Ordered(r[1..])
  {
    hide Less;
  }

  lemma {:induction false} FirstIsSame(es: seq<Entry>, r: seq<Entry>)
    requires Increasing(es) && Ordered(r) && multiset(r) == multiset(es) && es != [] && r != []
    ensures r[0] == es[0]
  {
    hide Less;
    assert r[0] in multiset(r) && es[0] in multiset(es);
    var i :| 0 <= i < |es| && es[i] == r[0];
    var j :| 0 <= j < |r| && r[j] == es[0];
    LessTotal(r[0].name, es[0].name);
    assert i > 0 ==> Less(es[0].name, r[0].name);
    assert j > 0 ==> !Less(es[0].name, r[0].name);
  }

  method ReadFeederMap(file: bytes) returns (map_: seq<Entry>)
    ensures Ordered(map_) && multiset(map_) == multiset(ReadAll(file))
    ensures Increasing(ReadAll(file)) ==> map_ == ReadAll(file)
  {
    hide ReadElement, Ordered, Increasing;
    var read: seq<Entry> := [];
    var unread := file;
    var more := true;
    while more
      invariant ReadAll(file) == read + if more then ReadAll(unread) else []
      decreases more, |unread|
    {
      var r := ReadElement(unread);
      if r.None? || r.value.0.name == [] {
        more := false;
      } else {
        read := read + [r.value.0];
        unread := r.value.1;
      }
    }
    map_ := SortByName(read);
    assert read + [] == read;
    if Increasing(read) {
      SortedIsSame(read, map_);
    }
  }

  /** Binary search for a name. */
  method LookupFeederMap(name: bytes, map_: seq<Entry>) returns (index: Option<nat>)
    requires Ordered(map_)
    ensures index.Some? ==> index.value < |map_| && map_[index.value].name == name
    ensures index.None? ==> forall i :: 0 <= i < |map_| ==> map_[i].name != name
  {
    hide Less;
    var i, j := 0, |map_|;
    while i < j
      invariant 0 <= i <= j <= |map_|
      invariant forall k :: 0 <= k < i ==> Less(map_[k].name, name)
      invariant forall k :: j <= k < |map_| ==> !Less(map_[k].name, name)
    {
      var h := (i + j) / 2;
      if Less(map_[h].name, name) {
        forall k | 0 <= k < h
          ensures Less(map_[k].name, name)
        {
          LessChain(map_[k].name, map_[h].name, name);
        }
        i := h + 1;
      } else {
        forall k | h <= k < |map_|
          ensures !Less(map_[k].name, name)
        {
          if k > h {
            ChainNotLess(map_[k].name, map_[h].name, name);
          }
        }
        j := h;
      }
    }
    if i == |map_| || map_[i].name != name {
      forall k | 0 <= k < |map_|
        ensures map_[k].name != name
      {
        LessTotal(map_[k].name, name);
        if k > i {
          LessTotal(map_[i].name, name);
          LessTotal(map_[k].name, map_[i].name);
        }
      }
      return None;
    }
    return Some(i);
  }

  lemma {:induction false} LessChain(a: bytes, b: bytes, c: bytes)
    requires !Less(b, a) && Less(b, c)
    ensures Less(a, c)
  {
    LessTotal(a, b);
    if Less(a, b) {
      LessTransitive(a, b, c);
    }
  }

  lemma {:induction false} ChainNotLess(a: bytes, b: bytes, c: bytes)
    requires !Less(a, b) && !Less(b, c)
    ensures !Less(a, c)
  {
    if Less(a, c) {
      LessTotal(a, b);
      LessTotal(b, c);
      if Less(b, a) {
        LessTransitive(b, a, c);
      }
      assert false;
    }
  }

  /**
   The name on the other side, with the conversion to use: looked up, then followed through the map
   index if it is in range.
   */
  method ConvertName(name: bytes, map_: seq<Entry>) returns (out: Option<Target>)
    requires Ordered(map_)
    ensures (forall i :: 0 <= i < |map_| ==> map_[i].name != name) ==> out == None
    ensures out.Some? ==> exists i :: 0 <= i < |map_| && map_[i].name == name && out == TargetOf(map_, i)
    ensures Increasing(map_) ==> forall i :: 0 <= i < |map_| && map_[i].name == name ==> out == TargetOf(map_, i)
  {
    var index := LookupFeederMap(name, map_);
    if index.None? {
      return None;
    }
    var i := index.value;
    out := TargetOf(map_, i);
    forall k | Increasing(map_) && 0 <= k < |map_| && map_[k].name == name
      ensures k == i
    {
      SameName(map_, k, i);
    }
  }

  /** A name on the other side and the index of the conversion. */
  datatype Target = Target(name: bytes, convertIndex: uint16)

  function TargetOf(map_: seq<Entry>, i: nat): Option<Target>
    requires i < |map_|
  {
    if map_[i].mapIndex < |map_| then Some(Target(map_[map_[i].mapIndex].name, map_[i].convertIndex)) else None
  }

  // ----- tool and feeder together -----

  /** The names of two entries lead to each other, and the entries keep their conversions. */
  ghost predicate LeadToEachOther(map_: seq<Entry>, x: Entry, y: Entry) {
    exists a, b :: 0 <= a < |map_| && 0 <= b < |map_| && a != b && map_[a].mapIndex == b && map_[b].mapIndex == a
                   && map_[a] == x.(mapIndex := map_[a].mapIndex) && map_[b] == y.(mapIndex := map_[b].mapIndex)
  }

  lemma {:induction false} TableCorresponds(es: seq<Entry>, rows: seq<Row>)
    requires IsTableOf(es, rows)
    ensures AllCorrespond(es)
  {
    hide IsTableOf;
    forall i | 0 <= i < |es|
      ensures Corresponding(es, i) < MAXUINT16
    {
      CorrespondingIsPartner(es, rows, i);
      TableSize(es, rows);
    }
  }

  lemma TableSize(es: seq<Entry>, rows: seq<Row>)
    requires IsTableOf(es, rows)
    ensures |es| <= MAXUINT16 && Increasing(es)
  {
  }

  /**
   What the feeder reads from the file the tool wrote: the ordered table, in which the map index is
   an involution without fixed points and each row's two names lead to each other. `tail` is what an
   older file left behind; the table is all that is read exactly if no entry can be read of it.
   */
  lemma {:induction false} FeederSeesMapping(es: seq<Entry>, rows: seq<Row>, tail: bytes)
    requires IsTableOf(es, rows) && forall i :: 0 <= i < |es| ==> Storable(es[i])
    ensures AllCorrespond(es)
    ensures ReadAll(EncodeAll(Reordered(es), tail)) == Reordered(es) <==> ReadAll(tail) == []
    ensures var map_ := Reordered(es);
            && Increasing(map_) && |map_| == |es|
            && (forall a :: 0 <= a < |map_| ==>
                  map_[a].mapIndex < |map_| && map_[a].mapIndex != a && map_[map_[a].mapIndex].mapIndex == a)
            && (forall i :: 0 <= i < |rows| ==> LeadToEachOther(map_, rows[i].north, rows[i].south))
  {
    hide IsTableOf, EncodeAll, ReadAll, Partners, Corresponding, LeadToEachOther;
    TableCorresponds(es, rows);
    TableSize(es, rows);
    var map_ := Reordered(es);
    ReadEncoded(map_, tail);
    assert |map_ + ReadAll(tail)| == |map_| + |ReadAll(tail)| && map_ + [] == map_;
    forall a | 0 <= a < |map_|
      ensures map_[a].mapIndex < |map_| && map_[a].mapIndex != a && map_[map_[a].mapIndex].mapIndex == a
    {
      CorrespondingIsPartner(es, rows, a);
    }
    forall i | 0 <= i < |rows|
      ensures LeadToEachOther(map_, rows[i].north, rows[i].south)
    {
      RowLeads(es, rows, i);
    }
  }

  lemma {:induction false} RowLeads(es: seq<Entry>, rows: seq<Row>, i: nat)
    requires IsTableOf(es, rows) && AllCorrespond(es) && i < |rows|
    ensures LeadToEachOther(Reordered(es), rows[i].north, rows[i].south)
  {
    hide Corresponding;
    var a :| 0 <= a < |es| && es[a] == rows[i].north;
    var b :| 0 <= b < |es| && es[b] == rows[i].south;
    CorrespondingIsPartner(es, rows, a);
    OnlyCounterpart(es, rows, a, b, Corresponding(es, a));
    var map_ := Reordered(es);
    assert map_[a].mapIndex == b && map_[b].mapIndex == a;
  }

  /** `out` is what following `name` through a strictly ordered map gives. */
  ghost predicate Follows(map_: seq<Entry>, name: bytes, out: Option<Target>) {
    && ((forall i :: 0 <= i < |map_| ==> map_[i].name != name) ==> out == None)
    && forall i :: 0 <= i < |map_| && map_[i].name == name ==> out == TargetOf(map_, i)
  }

  /** `out` is the partner of `name` in the mapping list, with the row's conversion, if `name` is in it. */
  ghost predicate IsPartnerOf(rows: seq<Row>, name: bytes, out: Option<Target>) {
    && (forall i :: 0 <= i < |rows| ==>
          && (name == rows[i].north.name ==> out == Some(Target(rows[i].south.name, rows[i].north.convertIndex)))
          && (name == rows[i].south.name ==> out == Some(Target(rows[i].north.name, rows[i].south.convertIndex))))
    && ((forall i :: 0 <= i < |rows| ==> name != rows[i].north.name && name != rows[i].south.name) ==> out == None)
  }

  lemma {:induction false} FollowsToPartner(es: seq<Entry>, rows: seq<Row>, name: bytes, out: Option<Target>)
    requires IsTableOf(es, rows) && AllCorrespond(es) && Follows(Reordered(es), name, out)
    ensures IsPartnerOf(rows, name, out)
  {
    hide Corresponding, Less;
    var map_ := Reordered(es);
    forall i | 0 <= i < |rows|
      ensures name == rows[i].north.name ==> out == Some(Target(rows[i].south.name, rows[i].north.convertIndex))
      ensures name == rows[i].south.name ==> out == Some(Target(rows[i].north.name, rows[i].south.convertIndex))
    {
      RowLeads(es, rows, i);
    }
    if forall i :: 0 <= i < |rows| ==> name != rows[i].north.name && name != rows[i].south.name {
      forall k | 0 <= k < |map_|
        ensures map_[k].name != name
      {
        assert map_[k].name == es[k].name && es[k] in es;
      }
    }
  }

  /**
   The whole way: from the ordered table, through the file, to the partner's name and conversion. It
   is led to if no entry can be read of what an older file left behind.
   */
  method ConvertThroughFile(table: array<Entry>, ghost rows: seq<Row>, oldFile: bytes, name: bytes) returns (out: Option<Target>)
    requires IsTableOf(table[..], rows) && forall i :: 0 <= i < table.Length ==> Storable(table[i])
    modifies table
    ensures AllCorrespond(old(table[..]))
    ensures ReadAll(Leftover(oldFile, EncodeAll(Reordered(old(table[..])), []))) == [] ==> IsPartnerOf(rows, name, out)
  {
    hide IsTableOf, Less, EncodeAll, ReadAll, Corresponding, Ordered, Increasing, LeadToEachOther, IsPartnerOf;
    ghost var es := table[..];
    TableCorresponds(es, rows);
    TableSize(es, rows);
    ReorderMapIndex(table);
    var file := WriteArrayToFile(table, oldFile);
    ghost var tail := Leftover(oldFile, EncodeAll(Reordered(es), []));
    FeederSeesMapping(es, rows, tail);
    var map_ := ReadFeederMap(file);
    out := ConvertName(name, map_);
    if ReadAll(tail) == [] {
      FollowsToPartner(es, rows, name, out);
    }
  }
}
