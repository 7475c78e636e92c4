/** The JSON text of every Protobuf message, character by character, from literals. */
module ProtoTexts {
  import opened ByteStrings
  import opened JsonText
  import opened JsonEscape
  import opened ProtoMessages

  // ----- the texts -----

  function Quoted(s: text): text { Chars("\"") + s + Chars("\"") }

  /** A string after escaping. */
  function Safe(s: str): text { Quoted(EscapeAll(s)) }

  /** A further member. */
  function Entry(key: string, value: text): text {
    Chars(",\"") + Chars(key) + Chars("\":") + value
  }

  /** A further member that is left out when its string is empty. */
  function Optional(key: string, s: text): text {
    if s == [] then [] else Entry(key, Quoted(s))
  }

  /** An object, up to its further members. */
  function Open(key: string, value: text): text {
    Chars("{\"") + Chars(key) + Chars("\":") + value
  }

  function Head(action: string): text { Open("action", Quoted(Chars(action))) }

  function Commas(ts: seq<text>): text {
    if ts == [] then [] else if |ts| == 1 then ts[0] else ts[0] + Chars(",") + Commas(ts[1..])
  }

  /** One element by itself, more between brackets. */
  function List(ts: seq<text>): text {
    if |ts| == 1 then ts[0] else Chars("[") + Commas(ts) + Chars("]")
  }

  function BoundText(b: Bound): text {
    Open("logic-op", Safe(b.op)) + Entry("boundary", Safe(b.boundary)) + Chars("}")
  }

  function PathTexts(ps: seq<str>): seq<text> { seq(|ps|, i requires 0 <= i < |ps| => Safe(ps[i])) }

  function BoundTexts(bs: seq<Bound>): seq<text> { seq(|bs|, i requires 0 <= i < |bs| => BoundText(bs[i])) }

  function Parameter(f: Filter): text {
    var v := f.value;
    match f.variant
    case 0 => var ps := if v.Paths? then v.paths else []; if ps == [] then Chars("\"\"") else List(PathTexts(ps))
    case 1 => Open("period", Quoted(if v.Timebased? then v.period else [])) + Chars("}")
    case 2 => var bs := if v.Range? then v.bounds else []; if bs == [] then Chars("{}") else List(BoundTexts(bs))
    case 3 =>
      Open("logic-op", Quoted(if v.Change? then v.op else [])) + Entry("diff", Quoted(if v.Change? then v.diff else [])) + Chars("}")
    case 4 =>
      Open("maxerr", Quoted(if v.Curvelog? then v.maxErr else []))
      + Entry("bufsize", Quoted(if v.Curvelog? then v.bufSize else [])) + Chars("}")
    case 5 => Quoted(if v.History? then v.timePeriod else [])
    case 6 => if v.Metadata? then v.tree else []
    case _ => []
  }

  function Variant(f: Filter): text {
    match f.variant
    case 0 => Chars("paths")
    case 1 => Chars("timebased")
    case 2 => Chars("range")
    case 3 => Chars("change")
    case 4 => Chars("curvelog")
    case 5 => Chars("history")
    case 6 => Chars("metadata")
    case _ => []
  }

  function FilterText(f: Filter): text {
    Open("variant", Quoted(Variant(f))) + Entry("parameter", Parameter(f)) + Chars("}")
  }

  function FilterTexts(fs: seq<Filter>): seq<text> { seq(|fs|, i requires 0 <= i < |fs| => FilterText(fs[i])) }

  function FiltersText(fs: Option<seq<Filter>>): text {
    if fs.None? || fs.value == [] then [] else Entry("filter", List(FilterTexts(fs.value)))
  }

  function PointText(p: DataPoint): text {
    Open("value", Safe(p.value)) + Entry("ts", Safe(p.ts)) + Chars("}")
  }

  function PointTexts(ps: seq<DataPoint>): seq<text> { seq(|ps|, i requires 0 <= i < |ps| => PointText(ps[i])) }

  function PackageText(p: DataPackage): text {
    Open("path", Safe(p.path)) + Entry("dp", if p.points == [] then Chars("{}") else List(PointTexts(p.points))) + Chars("}")
  }

  function PackageTexts(ps: seq<DataPackage>): seq<text> { seq(|ps|, i requires 0 <= i < |ps| => PackageText(ps[i])) }

  function ErrorText(e: Option<ErrorResponse>): text {
    if e.None? then []
    else
      Entry("error", Open("number", Safe(e.value.number)) + Entry("reason", Safe(e.value.reason))
                     + Entry("description", Safe(e.value.description)) + Chars("}"))
  }

  function AnswerText(a: Answer): text {
    match a
    case Data(ps) => if ps == [] then [] else Entry("data", List(PackageTexts(ps)))
    case MetadataOnly(_) => []
    case Failed(e) => ErrorText(Some(e))
  }

  function Or(s: Option<str>): str { if s.Some? then s.value else [] }

  function MessageText(m: Message): text {
    match m
    case GetRequest(path, filters, auth, dc, id) =>
      Head("get") + Entry("path", Quoted(path)) + FiltersText(filters)
      + Optional("authorization", Or(auth)) + Optional("dc", Or(dc)) + Optional("requestId", id) + Chars("}")
    case GetResponse(answer, ts, id, auth) =>
      Head("get") + AnswerText(answer) + Entry("ts", Quoted(ts)) + Optional("requestId", id) + Optional("authorization", Or(auth)) + Chars("}")
    case SetRequest(path, value, auth, id) =>
      Head("set") + Entry("path", Quoted(path)) + Entry("value", Quoted(value))
      + Optional("authorization", Or(auth)) + Optional("requestId", id) + Chars("}")
    case SetResponse(error, ts, id, auth) =>
      Head("set") + ErrorText(error) + Entry("ts", Quoted(ts)) + Optional("requestId", id) + Optional("authorization", Or(auth)) + Chars("}")
    case SubscribeRequest(path, filters, auth, dc, id) =>
      Head("subscribe") + Entry("path", Quoted(path)) + FiltersText(filters)
      + Optional("authorization", Or(auth)) + Optional("dc", Or(dc)) + Optional("requestId", id) + Chars("}")
    case SubscribeResponse(error, given, ts, id, auth) =>
      Head("subscribe") + ErrorText(error) + Entry("ts", Quoted(ts)) + Optional("subscriptionId", Or(given))
      + Optional("requestId", id) + Optional("authorization", Or(auth)) + Chars("}")
    case SubscribeEvent(answer, sub, ts) =>
      Head("subscription") + AnswerText(answer) + Entry("ts", Quoted(ts)) + Optional("subscriptionId", sub) + Chars("}")
    case UnsubscribeRequest(sub, id) =>
      Head("unsubscribe") + Optional("subscriptionId", sub) + Optional("requestId", id) + Chars("}")
    case UnsubscribeResponse(error, ts, id) =>
      Head("unsubscribe") + ErrorText(error) + Entry("ts", Quoted(ts)) + Optional("requestId", id) + Chars("}")
  }

  // ----- fields as entries -----

  lemma {:induction false} Keyed(k: Key, key: string, d: Doc)
    requires Name(k) == Chars(key)
    ensures PutField((Name(k), d), []) == Chars("\"") + Chars(key) + Chars("\":") + Put(d, [])
    ensures [COMMA] + PutField((Name(k), d), []) == Entry(key, Put(d, []))
    ensures [OPEN_BRACE] + PutField((Name(k), d), []) == Open(key, Put(d, []))
  {
    hide Put, Name;
  }

  lemma Strings(s: text)
    ensures Put(Text(s), []) == Quoted(s) && Chars("}") == [CLOSE_BRACE] && Chars("{}") == [OPEN_BRACE, CLOSE_BRACE]
  {
  }

  lemma EscapedText(s: str)
    ensures Put(Escaped(s), []) == Safe(s)
  {
    hide EscapeAll;
  }

  lemma {:induction false} SingleText(k: Key, key: string, d: Doc)
    requires Name(k) == Chars(key)
    ensures Put(Single(k, d), []) == Open(key, Put(d, [])) + Chars("}")
  {
    hide Put, PutField, Name, Open;
    RecordText((Name(k), d), []);
    Keyed(k, key, d);
    Strings([]);
    assert [(Name(k), d)] + [] == [(Name(k), d)];
  }

  lemma {:induction false} PairText(k: Key, key: string, d: Doc, k': Key, key': string, d': Doc)
    requires Name(k) == Chars(key) && Name(k') == Chars(key')
    ensures Put(Pair(k, d, k', d'), []) == Open(key, Put(d, [])) + Entry(key', Put(d', [])) + Chars("}")
  {
    hide Put, PutField, Name, Open, Entry;
    var second := [(Name(k'), d')];
    RecordText((Name(k), d), second);
    assert [(Name(k), d)] + second == [(Name(k), d), (Name(k'), d')];
    Keyed(k, key, d);
    Keyed(k', key', d');
    assert second[1..] == [];
    Strings([]);
  }

  lemma {:induction false} ItemsText(docs: seq<Doc>, ts: seq<text>)
    requires |docs| == |ts| > 0 && forall i :: 0 <= i < |docs| ==> Put(docs[i], []) == ts[i]
    ensures PutItems(docs, []) == Commas(ts)
    decreases |docs|
  {
    hide Put;
    assert Chars(",") == [COMMA];
    if |docs| > 1 {
      ItemsText(docs[1..], ts[1..]);
      var after := [COMMA] + PutItems(docs[1..], []);
      PutAppend(docs[0], [], after);
      assert [] + after == after;
    }
  }

  lemma {:induction false} ListText(docs: seq<Doc>, ts: seq<text>)
    requires |docs| == |ts| > 0 && forall i :: 0 <= i < |docs| ==> Put(docs[i], []) == ts[i]
    ensures Put(OneOrMany(docs), []) == List(ts)
  {
    hide Put, PutItems, OneOrMany, Commas;
    PutOneOrMany(docs);
    ItemsText(docs, ts);
    OneComma(ts);
    assert Chars("[") == [OPEN_BRACKET] && Chars("]") == [CLOSE_BRACKET];
  }

  lemma OneComma(ts: seq<text>)
    requires ts != []
    ensures |ts| == 1 ==> Commas(ts) == ts[0]
  {
  }

  // ----- filters, data and errors -----

  lemma {:induction false} BoundIs(b: Bound)
    ensures Put(BoundDoc(b), []) == BoundText(b)
  {
    hide Put, Safe, Escaped, Open, Entry, Pair;
    EscapedText(b.op);
    EscapedText(b.boundary);
    PairText(LogicOpKey, "logic-op", Escaped(b.op), BoundaryKey, "boundary", Escaped(b.boundary));
  }

  lemma {:induction false} PathsAre(ps: seq<str>)
    requires ps != []
    ensures Put(OneOrMany(PathDocs(ps)), []) == List(PathTexts(ps))
  {
    hide Put, OneOrMany, List, Safe, Escaped;
    forall i | 0 <= i < |ps| ensures Put(PathDocs(ps)[i], []) == PathTexts(ps)[i] {
      EscapedText(ps[i]);
    }
    ListText(PathDocs(ps), PathTexts(ps));
  }

  lemma {:induction false} BoundsAre(bs: seq<Bound>)
    requires bs != []
    ensures Put(OneOrMany(BoundDocs(bs)), []) == List(BoundTexts(bs))
  {
    hide Put, OneOrMany, List, BoundDoc, BoundText;
    forall i | 0 <= i < |bs| ensures Put(BoundDocs(bs)[i], []) == BoundTexts(bs)[i] {
      BoundIs(bs[i]);
    }
    ListText(BoundDocs(bs), BoundTexts(bs));
  }

  lemma EmptyTexts()
    ensures Put(Text([]), []) == Chars("\"\"") && Put(Record([]), []) == Chars("{}")
  {
  }

  lemma {:induction false} ParameterIs(f: Filter)
    ensures Put(ParameterDoc(f), []) == Parameter(f)
  {
    hide Put, OneOrMany, List, PathDocs, PathTexts, BoundDocs, BoundTexts, Pair, Single, Open, Entry, Quoted;
    var v := f.value;
    EmptyTexts();
    match f.variant
    case 0 =>
      if PathsOf(v) != [] {
        PathsAre(PathsOf(v));
      }
    case 1 =>
      Strings(PeriodOf(v));
      SingleText(PeriodKey, "period", Text(PeriodOf(v)));
    case 2 =>
      if BoundsOf(v) != [] {
        BoundsAre(BoundsOf(v));
      }
    case 3 =>
      Strings(ChangeOf(v).0);
      Strings(ChangeOf(v).1);
      PairText(LogicOpKey, "logic-op", Text(ChangeOf(v).0), DiffKey, "diff", Text(ChangeOf(v).1));
    case 4 =>
      Strings(CurvelogOf(v).0);
      Strings(CurvelogOf(v).1);
      PairText(MaxErrKey, "maxerr", Text(CurvelogOf(v).0), BufSizeKey, "bufsize", Text(CurvelogOf(v).1));
    case 5 => Strings(HistoryOf(v));
    case _ => RawText(if f.variant == 6 then TreeOf(v) else []);
  }

  lemma RawText(s: text)
    ensures Put(Raw(s, Word([])), []) == s
  {
  }

  lemma {:induction false} FilterIs(f: Filter)
    ensures Put(FilterDoc(f), []) == FilterText(f)
  {
    hide Put, ParameterDoc, Parameter, Open, Entry, Pair, Quoted, Chars;
    ParameterIs(f);
    assert VariantName(f.variant) == Variant(f);
    Strings(Variant(f));
    PairText(VariantKey, "variant", Text(Variant(f)), ParameterKey, "parameter", ParameterDoc(f));
  }

  lemma {:induction false} FiltersAre(fs: seq<Filter>)
    requires fs != []
    ensures Put(OneOrMany(FilterDocs(fs)), []) == List(FilterTexts(fs))
  {
    hide Put, OneOrMany, List, FilterDoc, FilterText;
    forall i | 0 <= i < |fs| ensures Put(FilterDocs(fs)[i], []) == FilterTexts(fs)[i] {
      FilterIs(fs[i]);
    }
    ListText(FilterDocs(fs), FilterTexts(fs));
  }

  lemma {:induction false} PointIs(p: DataPoint)
    ensures Put(PointDoc(p), []) == PointText(p)
  {
    hide Put, Safe, Escaped, Open, Entry, Pair;
    EscapedText(p.value);
    EscapedText(p.ts);
    PairText(ValueKey, "value", Escaped(p.value), TsKey, "ts", Escaped(p.ts));
  }

  lemma {:induction false} PackageIs(p: DataPackage)
    ensures Put(PackageDoc(p), []) == PackageText(p)
  {
    hide Put, Safe, Escaped, Open, Entry, Pair, PointDoc, PointText, OneOrMany, List;
    EscapedText(p.path);
    EmptyTexts();
    if p.points != [] {
      forall i | 0 <= i < |p.points| ensures Put(PointDocs(p.points)[i], []) == PointTexts(p.points)[i] {
        PointIs(p.points[i]);
      }
      ListText(PointDocs(p.points), PointTexts(p.points));
    }
    PairText(PathKey, "path", Escaped(p.path), DpKey, "dp", if p.points == [] then Record([]) else OneOrMany(PointDocs(p.points)));
  }

  lemma {:induction false} PackagesAre(ps: seq<DataPackage>)
    requires ps != []
    ensures Put(OneOrMany(PackageDocs(ps)), []) == List(PackageTexts(ps))
  {
    hide Put, OneOrMany, List, PackageDoc, PackageText;
    forall i | 0 <= i < |ps| ensures Put(PackageDocs(ps)[i], []) == PackageTexts(ps)[i] {
      PackageIs(ps[i]);
    }
    ListText(PackageDocs(ps), PackageTexts(ps));
  }

  lemma {:induction false} ErrorIs(e: ErrorResponse)
    ensures Entry("error", Put(ErrorDoc(e), [])) == ErrorText(Some(e))
  {
    hide Put, Safe, Escaped, Open, Entry, PutField, Name;
    var fields := [(Name(ReasonKey), Escaped(e.reason)), (Name(DescriptionKey), Escaped(e.description))];
    EscapedText(e.number);
    EscapedText(e.reason);
    EscapedText(e.description);
    RecordText((Name(NumberKey), Escaped(e.number)), fields);
    assert [(Name(NumberKey), Escaped(e.number))] + fields
        == [(Name(NumberKey), Escaped(e.number)), (Name(ReasonKey), Escaped(e.reason)), (Name(DescriptionKey), Escaped(e.description))];
    ErrorNames();
    Keyed(NumberKey, "number", Escaped(e.number));
    Keyed(ReasonKey, "reason", Escaped(e.reason));
    Keyed(DescriptionKey, "description", Escaped(e.description));
    MoreTwo(fields[0], fields[1]);
    Strings([]);
    hide More;
    var (a, b) := (Entry("reason", Safe(e.reason)), Entry("description", Safe(e.description)));
    assert [OPEN_BRACE] + PutField((Name(NumberKey), Escaped(e.number)), []) + (a + b) + [CLOSE_BRACE]
        == Open("number", Safe(e.number)) + a + b + Chars("}");
  }

  lemma {:induction false} MoreTwo(f: (text, Doc), g: (text, Doc))
    ensures More([f, g]) == ([COMMA] + PutField(f, [])) + ([COMMA] + PutField(g, []))
  {
    hide PutField;
    assert [f, g][1..] == [g] && [g][1..] == [];
    assert More([g]) == [COMMA] + PutField(g, []) + More([]);
  }

  lemma ErrorNames()
    ensures Name(NumberKey) == Chars("number") && Name(ReasonKey) == Chars("reason") && Name(DescriptionKey) == Chars("description")
  {
  }

  // ----- messages -----

  /** The text of one member of a message, behind a comma; nothing if it is left out. */
  function EntryOf(m: Message, k: Key): text {
    if Field(m, k).None? then [] else [COMMA] + PutField((Name(k), Field(m, k).value), [])
  }

  function EntriesOf(m: Message, ks: seq<Key>): text {
    if ks == [] then [] else EntryOf(m, ks[0]) + EntriesOf(m, ks[1..])
  }

  lemma {:induction false} MoreFields(m: Message, ks: seq<Key>)
    ensures More(Fields(m, ks)) == EntriesOf(m, ks)
  {
    hide PutField, Field, Name;
    if ks != [] {
      MoreFields(m, ks[1..]);
      var d := Field(m, ks[0]);
      if d.Some? {
        var f := (Name(ks[0]), d.value);
        assert Fields(m, ks) == [f] + Fields(m, ks[1..]);
        assert ([f] + Fields(m, ks[1..]))[1..] == Fields(m, ks[1..]);
      } else {
        assert Fields(m, ks) == [] + Fields(m, ks[1..]) == Fields(m, ks[1..]);
      }
    }
  }

  lemma {:induction false} PrintedAs(m: Message, ks: seq<Key>)
    requires Order(m) == [ActionKey] + ks
    ensures Print(m) == [OPEN_BRACE] + PutField((Name(ActionKey), Text(ActionName(m))), []) + EntriesOf(m, ks) + [CLOSE_BRACE]
  {
    hide PutField, Name, Put, More, Order;
    assert ([ActionKey] + ks)[1..] == ks;
    var f := (Name(ActionKey), Text(ActionName(m)));
    assert Fields(m, Order(m)) == [f] + Fields(m, ks);
    RecordText(f, Fields(m, ks));
    MoreFields(m, ks);
  }

  lemma {:induction false} HeadIs(m: Message, action: string)
    requires ActionName(m) == Chars(action)
    ensures [OPEN_BRACE] + PutField((Name(ActionKey), Text(ActionName(m))), []) == Head(action)
  {
    hide PutField, Put, Open, Quoted;
    Keyed(ActionKey, "action", Text(ActionName(m)));
    Strings(ActionName(m));
  }

  lemma {:induction false} TextEntry(m: Message, k: Key, key: string, s: str)
    requires Name(k) == Chars(key)
    ensures Field(m, k) == Some(Text(s)) ==> EntryOf(m, k) == Entry(key, Quoted(s))
    ensures Field(m, k) == NonEmpty(s) ==> EntryOf(m, k) == Optional(key, s)
  {
    hide PutField, Put, Quoted, Entry, Name, Field;
    Keyed(k, key, Text(s));
    Strings(s);
  }

  lemma {:induction false} DocEntry(m: Message, k: Key, key: string, d: Doc)
    requires Name(k) == Chars(key) && Field(m, k) == Some(d)
    ensures EntryOf(m, k) == Entry(key, Put(d, []))
  {
    hide PutField, Put, Entry, Name, Field;
    Keyed(k, key, d);
  }

  lemma {:induction false} FilterEntry(m: Message)
    requires m.GetRequest? || m.SubscribeRequest?
    ensures EntryOf(m, FilterKey) == FiltersText(m.filters)
  {
    hide Put, PutField, OneOrMany, List, FilterDoc, FilterTexts, Entry;
    if m.filters.Some? && m.filters.value != [] {
      FiltersAre(m.filters.value);
      DocEntry(m, FilterKey, "filter", OneOrMany(FilterDocs(m.filters.value)));
    }
  }

  lemma {:induction false} ErrorEntry(m: Message)
    ensures EntryOf(m, ErrorKey) == ErrorText(ErrorOf(m))
  {
    hide Put, PutField, ErrorDoc, Entry, ErrorOf;
    if ErrorOf(m).Some? {
      ErrorIs(ErrorOf(m).value);
      DocEntry(m, ErrorKey, "error", ErrorDoc(ErrorOf(m).value));
    }
  }

  lemma {:induction false} AnswerEntries(m: Message)
    requires m.GetResponse? || m.SubscribeEvent?
    ensures EntryOf(m, DataKey) + EntryOf(m, ErrorKey) == AnswerText(m.answer)
  {
    hide Put, PutField, OneOrMany, List, PackageDoc, PackageTexts, Entry, ErrorText;
    ErrorEntry(m);
    NoError();
    if m.answer.Data? && m.answer.packages != [] {
      PackagesAre(m.answer.packages);
      DocEntry(m, DataKey, "data", OneOrMany(PackageDocs(m.answer.packages)));
    }
  }

  lemma NoError()
    ensures ErrorText(None) == []
  {
  }

  lemma {:induction false} Two(m: Message, a: Key, b: Key)
    ensures EntriesOf(m, [a, b]) == EntryOf(m, a) + EntryOf(m, b)
  {
    hide EntryOf;
    assert [a, b][1..] == [b] && [b][1..] == [];
    assert EntriesOf(m, [b]) == EntryOf(m, b) + EntriesOf(m, []);
  }

  lemma Flat(a: text, b: text, c: text, d: text, e: text)
    ensures a + (b + c + d) == a + b + c + d && a + (b + c + d + e) == a + b + c + d + e
  {
  }

  /** A head, five entries and an end, however they are grouped. */
  lemma Whole(h: text, a: text, b: text, c: text, d: text, e: text, end: text)
    ensures h + (a + b + c + d + e) + end == h + a + b + c + d + e + end
    ensures h + (a + b + c + d) + end == h + a + b + c + d + end
    ensures h + (a + b + c) + end == h + a + b + c + end
    ensures h + (a + b) + end == h + a + b + end
  {
    assert h + (a + b) == h + a + b;
    assert h + (a + b + c) == h + (a + b) + c;
    assert h + (a + b + c + d) == h + (a + b + c) + d;
    assert h + (a + b + c + d + e) == h + (a + b + c + d) + e;
  }

  lemma MemberNames()
    ensures Name(PathKey) == Chars("path") && Name(ValueKey) == Chars("value") && Name(TsKey) == Chars("ts") && Name(DcKey) == Chars("dc")
    ensures Name(AuthorizationKey) == Chars("authorization") && Name(RequestIdKey) == Chars("requestId")
    ensures Name(SubscriptionIdKey) == Chars("subscriptionId")
  {
  }

  lemma {:induction false} FieldsAre(m: Message)
    ensures m.GetRequest? || m.SetRequest? || m.SubscribeRequest? ==> Field(m, PathKey) == Some(Text(m.path))
    ensures m.SetRequest? ==> Field(m, ValueKey) == Some(Text(m.value))
    ensures m.GetRequest? || m.SubscribeRequest? ==> Field(m, DcKey) == NonEmpty(Or(m.dc))
    ensures !m.SubscribeEvent? && !m.UnsubscribeRequest? && !m.UnsubscribeResponse? ==> Field(m, AuthorizationKey) == NonEmpty(Or(m.authorization))
    ensures !m.SubscribeEvent? ==> Field(m, RequestIdKey) == NonEmpty(m.requestId)
    ensures m.SubscribeResponse? ==> Field(m, SubscriptionIdKey) == NonEmpty(Or(m.given))
    ensures m.SubscribeEvent? || m.UnsubscribeRequest? ==> Field(m, SubscriptionIdKey) == NonEmpty(m.subscriptionId)
    ensures m.GetResponse? || m.SetResponse? || m.SubscribeResponse? || m.SubscribeEvent? || m.UnsubscribeResponse? ==>
              Field(m, TsKey) == Some(Text(m.ts))
  {
    hide FiltersDoc, DataDoc, ErrorDoc, ErrorOf, ActionName, NonEmpty;
  }

  lemma {:induction false} First(m: Message, a: Key, ks: seq<Key>)
    ensures EntriesOf(m, [a] + ks) == EntryOf(m, a) + EntriesOf(m, ks)
  {
    hide EntryOf;
    assert ([a] + ks)[1..] == ks;
  }

  lemma {:induction false} Three(m: Message, a: Key, b: Key, c: Key)
    ensures EntriesOf(m, [a, b, c]) == EntryOf(m, a) + EntryOf(m, b) + EntryOf(m, c)
  {
    hide EntryOf, EntriesOf;
    First(m, a, [b, c]);
    Two(m, b, c);
    assert [a] + [b, c] == [a, b, c];
  }

  lemma {:induction false} Four(m: Message, a: Key, b: Key, c: Key, d: Key)
    ensures EntriesOf(m, [a, b, c, d]) == EntryOf(m, a) + EntryOf(m, b) + EntryOf(m, c) + EntryOf(m, d)
  {
    hide EntryOf, EntriesOf;
    First(m, a, [b, c, d]);
    Three(m, b, c, d);
    assert [a] + [b, c, d] == [a, b, c, d];
    Flat(EntryOf(m, a), EntryOf(m, b), EntryOf(m, c), EntryOf(m, d), []);
  }

  lemma {:induction false} Five(m: Message, a: Key, b: Key, c: Key, d: Key, e: Key)
    ensures EntriesOf(m, [a, b, c, d, e]) == EntryOf(m, a) + EntryOf(m, b) + EntryOf(m, c) + EntryOf(m, d) + EntryOf(m, e)
  {
    hide EntryOf, EntriesOf;
    First(m, a, [b, c, d, e]);
    Four(m, b, c, d, e);
    assert [a] + [b, c, d, e] == [a, b, c, d, e];
    Flat(EntryOf(m, a), EntryOf(m, b), EntryOf(m, c), EntryOf(m, d), EntryOf(m, e));
  }

  lemma {:induction false} QueryText(m: Message)
    requires m.GetRequest? || m.SubscribeRequest?
    ensures Print(m) == MessageText(m)
  {
    hide Print, Field, Name, EntryOf, EntriesOf, PutField, Head, Entry, Optional, Quoted, Or, NonEmpty, FiltersText, Chars;
    MemberNames();
    FieldsAre(m);
    PrintedAs(m, [PathKey, FilterKey, AuthorizationKey, DcKey, RequestIdKey]);
    Five(m, PathKey, FilterKey, AuthorizationKey, DcKey, RequestIdKey);
    HeadIs(m, if m.GetRequest? then "get" else "subscribe");
    TextEntry(m, PathKey, "path", m.path);
    FilterEntry(m);
    TextEntry(m, AuthorizationKey, "authorization", Or(m.authorization));
    TextEntry(m, DcKey, "dc", Or(m.dc));
    TextEntry(m, RequestIdKey, "requestId", m.requestId);
    Strings([]);
    Whole(Head(if m.GetRequest? then "get" else "subscribe"), EntryOf(m, PathKey), EntryOf(m, FilterKey), EntryOf(m, AuthorizationKey),
          EntryOf(m, DcKey), EntryOf(m, RequestIdKey), [CLOSE_BRACE]);
  }

  lemma {:induction false} SetText(m: Message)
    requires m.SetRequest?
    ensures Print(m) == MessageText(m)
  {
    hide Print, Field, Name, EntryOf, EntriesOf, PutField, Head, Entry, Optional, Quoted, Or, NonEmpty, Chars;
    MemberNames();
    FieldsAre(m);
    PrintedAs(m, [PathKey, ValueKey, AuthorizationKey, RequestIdKey]);
    Four(m, PathKey, ValueKey, AuthorizationKey, RequestIdKey);
    HeadIs(m, "set");
    TextEntry(m, PathKey, "path", m.path);
    TextEntry(m, ValueKey, "value", m.value);
    TextEntry(m, AuthorizationKey, "authorization", Or(m.authorization));
    TextEntry(m, RequestIdKey, "requestId", m.requestId);
    Strings([]);
    Whole(Head("set"), EntryOf(m, PathKey), EntryOf(m, ValueKey), EntryOf(m, AuthorizationKey), EntryOf(m, RequestIdKey), [], [CLOSE_BRACE]);
  }

  lemma {:induction false} UnsubscribeText(m: Message)
    requires m.UnsubscribeRequest?
    ensures Print(m) == MessageText(m)
  {
    hide Print, Field, Name, EntryOf, EntriesOf, PutField, Head, Entry, Optional, Quoted, Or, NonEmpty, Chars;
    MemberNames();
    FieldsAre(m);
    PrintedAs(m, [SubscriptionIdKey, RequestIdKey]);
    Two(m, SubscriptionIdKey, RequestIdKey);
    HeadIs(m, "unsubscribe");
    TextEntry(m, SubscriptionIdKey, "subscriptionId", m.subscriptionId);
    TextEntry(m, RequestIdKey, "requestId", m.requestId);
    Strings([]);
    Whole(Head("unsubscribe"), EntryOf(m, SubscriptionIdKey), EntryOf(m, RequestIdKey), [], [], [], [CLOSE_BRACE]);
  }

  lemma {:induction false} GetAnswerText(m: Message)
    requires m.GetResponse?
    ensures Print(m) == MessageText(m)
  {
    hide Print, Field, Name, EntryOf, EntriesOf, PutField, Head, Entry, Optional, Quoted, Or, NonEmpty, Chars, AnswerText;
    MemberNames();
    FieldsAre(m);
    PrintedAs(m, [DataKey, ErrorKey, TsKey, RequestIdKey, AuthorizationKey]);
    Five(m, DataKey, ErrorKey, TsKey, RequestIdKey, AuthorizationKey);
    HeadIs(m, "get");
    AnswerEntries(m);
    TextEntry(m, TsKey, "ts", m.ts);
    TextEntry(m, RequestIdKey, "requestId", m.requestId);
    TextEntry(m, AuthorizationKey, "authorization", Or(m.authorization));
    Strings([]);
    var answer := EntryOf(m, DataKey) + EntryOf(m, ErrorKey);
    Whole(Head("get"), answer, EntryOf(m, TsKey), EntryOf(m, RequestIdKey), EntryOf(m, AuthorizationKey), [], [CLOSE_BRACE]);
  }

  lemma {:induction false} EventText(m: Message)
    requires m.SubscribeEvent?
    ensures Print(m) == MessageText(m)
  {
    hide Print, Field, Name, EntryOf, EntriesOf, PutField, Head, Entry, Optional, Quoted, Or, NonEmpty, Chars, AnswerText;
    MemberNames();
    FieldsAre(m);
    PrintedAs(m, [DataKey, ErrorKey, TsKey, SubscriptionIdKey]);
    Four(m, DataKey, ErrorKey, TsKey, SubscriptionIdKey);
    HeadIs(m, "subscription");
    AnswerEntries(m);
    TextEntry(m, TsKey, "ts", m.ts);
    TextEntry(m, SubscriptionIdKey, "subscriptionId", m.subscriptionId);
    Strings([]);
    var answer := EntryOf(m, DataKey) + EntryOf(m, ErrorKey);
    Whole(Head("subscription"), answer, EntryOf(m, TsKey), EntryOf(m, SubscriptionIdKey), [], [], [CLOSE_BRACE]);
  }

  lemma {:induction false} StatusText(m: Message)
    requires m.SetResponse? || m.SubscribeResponse? || m.UnsubscribeResponse?
    ensures Print(m) == MessageText(m)
  {
    hide Print, Field, Name, EntryOf, EntriesOf, PutField, Head, Entry, Optional, Quoted, Or, NonEmpty, Chars, ErrorText;
    MemberNames();
    FieldsAre(m);
    ErrorEntry(m);
    TextEntry(m, TsKey, "ts", m.ts);
    TextEntry(m, RequestIdKey, "requestId", m.requestId);
    Strings([]);
    if m.SetResponse? {
      PrintedAs(m, [ErrorKey, TsKey, RequestIdKey, AuthorizationKey]);
      Four(m, ErrorKey, TsKey, RequestIdKey, AuthorizationKey);
      HeadIs(m, "set");
      TextEntry(m, AuthorizationKey, "authorization", Or(m.authorization));
      Whole(Head("set"), EntryOf(m, ErrorKey), EntryOf(m, TsKey), EntryOf(m, RequestIdKey), EntryOf(m, AuthorizationKey), [], [CLOSE_BRACE]);
    } else if m.SubscribeResponse? {
      PrintedAs(m, [ErrorKey, TsKey, SubscriptionIdKey, RequestIdKey, AuthorizationKey]);
      Five(m, ErrorKey, TsKey, SubscriptionIdKey, RequestIdKey, AuthorizationKey);
      HeadIs(m, "subscribe");
      TextEntry(m, SubscriptionIdKey, "subscriptionId", Or(m.given));
      TextEntry(m, AuthorizationKey, "authorization", Or(m.authorization));
      Whole(Head("subscribe"), EntryOf(m, ErrorKey), EntryOf(m, TsKey), EntryOf(m, SubscriptionIdKey), EntryOf(m, RequestIdKey),
            EntryOf(m, AuthorizationKey), [CLOSE_BRACE]);
    } else {
      PrintedAs(m, [ErrorKey, TsKey, RequestIdKey]);
      Three(m, ErrorKey, TsKey, RequestIdKey);
      HeadIs(m, "unsubscribe");
      Whole(Head("unsubscribe"), EntryOf(m, ErrorKey), EntryOf(m, TsKey), EntryOf(m, RequestIdKey), [], [], [CLOSE_BRACE]);
    }
  }

  /** The text printed for a message, whatever it holds. */
  lemma {:induction false} PrintedText(m: Message)
    ensures Print(m) == MessageText(m)
  {
    hide Print, MessageText;
    if m.GetRequest? || m.SubscribeRequest? {
      QueryText(m);
    } else if m.SetRequest? {
      SetText(m);
    } else if m.UnsubscribeRequest? {
      UnsubscribeText(m);
    } else if m.GetResponse? {
      GetAnswerText(m);
    } else if m.SubscribeEvent? {
      EventText(m);
    } else {
      StatusText(m);
    }
  }

  /** A get response without data is read with its metadata, whatever term that is. */
  lemma {:induction false} MetadataRead(t: Term, ts: str)
    ensures FromMembers([(Chars("action"), Str(Chars("get"))), (Chars("metadata"), t), (Chars("ts"), Str(ts))])
         == Parsed(GetResponse(MetadataOnly(t), ts, [], None))
  {
    var ms := [(Chars("action"), Str(Chars("get"))), (Chars("metadata"), t), (Chars("ts"), Str(ts))];
    ThreeMembers(ms);
    GetIsText();
    assert Runes(ts) == ts;
    hide Member, Runes, Chars, Name, ReadFilters;
  }

  /** A code unit that is half of a pair is read as the replacement character. */
  lemma SurrogateRead(c: int)
    requires 0xD800 <= c < 0xE000
    ensures AsString(Some(Str([c]))) == Some([0xFFFD])
  {
    assert Runes([c]) == [0xFFFD];
  }

  lemma GetIsText()
    ensures Runes(Chars("get")) == Chars("get")
  {
  }

  lemma {:induction false} ThreeMembers(ms: Members)
    requires |ms| == 3 && ms[0].0 == Chars("action") && ms[1].0 == Chars("metadata") && ms[2].0 == Chars("ts")
    ensures Member(ms, ActionKey) == Some(ms[0].1) && Member(ms, MetadataKey) == Some(ms[1].1) && Member(ms, TsKey) == Some(ms[2].1)
    ensures Member(ms, PathKey) == None && Member(ms, DataKey) == None && Member(ms, ErrorKey) == None
    ensures Member(ms, AuthorizationKey) == None && Member(ms, RequestIdKey) == None
  {
    assert |Chars("action")| == 6 && |Chars("metadata")| == 8 && |Chars("ts")| == 2;
    assert |Name(PathKey)| == 4 && |Name(DataKey)| == 4 && |Name(ErrorKey)| == 5 && |Name(AuthorizationKey)| == 13 && |Name(RequestIdKey)| == 9;
    assert Name(ActionKey) == Chars("action") && Name(MetadataKey) == Chars("metadata") && Name(TsKey) == Chars("ts");
    assert ms[1..] == [ms[1], ms[2]] && ms[1..][1..] == [ms[2]] && ms[1..][1..][1..] == [];
    hide Name, Chars;
    forall k: Key
      ensures Member(ms, k) == if ms[2].0 == Name(k) then Some(ms[2].1) else if ms[1].0 == Name(k) then Some(ms[1].1)
                               else if ms[0].0 == Name(k) then Some(ms[0].1) else None
    {
      assert Member(ms[1..][1..], k) == if ms[2].0 == Name(k) then Some(ms[2].1) else None;
      assert Member(ms[1..], k) == if ms[2].0 == Name(k) then Some(ms[2].1) else if ms[1].0 == Name(k) then Some(ms[1].1) else None;
    }
  }
}
