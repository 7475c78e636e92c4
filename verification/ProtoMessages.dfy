/**
 The VISS messages that travel both as Protobuf and as JSON: their printing as JSON text, and their
 recovery from JSON text.
 */
module ProtoMessages {
  import opened ByteStrings
  import opened JsonText
  import opened JsonEscape

  type str = seq<rune>

  // ----- the messages -----

  datatype Bound = Bound(op: str, boundary: str)

  /** `Unset` is a missing value, `Blank` a value with none of its alternatives filled in. */
  datatype FilterValue =
    | Unset
    | Blank
    | Paths(paths: seq<str>)
    | Timebased(period: str)
    | Range(bounds: seq<Bound>)
    | Change(op: str, diff: str)
    | Curvelog(maxErr: str, bufSize: str)
    | History(timePeriod: str)
    | Metadata(tree: str)

  datatype Filter = Filter(variant: int, value: FilterValue)

  datatype DataPoint = DataPoint(value: str, ts: str)

  datatype DataPackage = DataPackage(path: str, points: seq<DataPoint>)

  datatype ErrorResponse = ErrorResponse(number: str, reason: str, description: str)

  /** What a response carries; metadata is kept as the term its text is the JSON of. */
  datatype Answer =
    | Data(packages: seq<DataPackage>)
    | MetadataOnly(metadata: Term)
    | Failed(error: ErrorResponse)

  datatype Message =
    | GetRequest(path: str, filters: Option<seq<Filter>>, authorization: Option<str>, dc: Option<str>, requestId: str)
    | GetResponse(answer: Answer, ts: str, requestId: str, authorization: Option<str>)
    | SetRequest(path: str, value: str, authorization: Option<str>, requestId: str)
    | SetResponse(error: Option<ErrorResponse>, ts: str, requestId: str, authorization: Option<str>)
    | SubscribeRequest(path: str, filters: Option<seq<Filter>>, authorization: Option<str>, dc: Option<str>, requestId: str)
    | SubscribeResponse(error: Option<ErrorResponse>, given: Option<str>, ts: str, requestId: str, authorization: Option<str>)
    | SubscribeEvent(answer: Answer, subscriptionId: str, ts: str)
    | UnsubscribeRequest(subscriptionId: str, requestId: str)
    | UnsubscribeResponse(error: Option<ErrorResponse>, ts: str, requestId: str)

  // ----- member names -----

  datatype Key =
    | ActionKey | PathKey | ValueKey | FilterKey | DataKey | DpKey | ErrorKey | TsKey | DcKey | MetadataKey
    | AuthorizationKey | RequestIdKey | SubscriptionIdKey
    | VariantKey | ParameterKey | PeriodKey | LogicOpKey | BoundaryKey | DiffKey | MaxErrKey | BufSizeKey
    | NumberKey | ReasonKey | DescriptionKey

  function Name(k: Key): text {
    match k
    case ActionKey => Chars("action")
    case PathKey => Chars("path")
    case ValueKey => Chars("value")
    case FilterKey => Chars("filter")
    case DataKey => Chars("data")
    case DpKey => Chars("dp")
    case ErrorKey => Chars("error")
    case TsKey => Chars("ts")
    case DcKey => Chars("dc")
    case MetadataKey => Chars("metadata")
    case AuthorizationKey => Chars("authorization")
    case RequestIdKey => Chars("requestId")
    case SubscriptionIdKey => Chars("subscriptionId")
    case VariantKey => Chars("variant")
    case ParameterKey => Chars("parameter")
    case PeriodKey => Chars("period")
    case LogicOpKey => Chars("logic-op")
    case BoundaryKey => Chars("boundary")
    case DiffKey => Chars("diff")
    case MaxErrKey => Chars("maxerr")
    case BufSizeKey => Chars("bufsize")
    case NumberKey => Chars("number")
    case ReasonKey => Chars("reason")
    case DescriptionKey => Chars("description")
  }

  // ----- printing -----

  /** A string printed between quotes after escaping. */
  function Escaped(s: str): Doc {
    Raw([QUOTE] + EscapeAll(s) + [QUOTE], Str(s))
  }

  /** A list of one is printed as its element, a longer one between brackets. */
  function OneOrMany(docs: seq<Doc>): Doc
    requires docs != []
  {
    if |docs| == 1 then docs[0] else Items(docs)
  }

  function Single(k: Key, d: Doc): Doc {
    Record([(Name(k), d)])
  }

  function Pair(k: Key, d: Doc, k': Key, d': Doc): Doc {
    Record([(Name(k), d), (Name(k'), d')])
  }

  function PathDocs(paths: seq<str>): seq<Doc> {
    seq(|paths|, i requires 0 <= i < |paths| => Escaped(paths[i]))
  }

  function BoundDoc(b: Bound): Doc {
    Pair(LogicOpKey, Escaped(b.op), BoundaryKey, Escaped(b.boundary))
  }

  function BoundDocs(bounds: seq<Bound>): seq<Doc> {
    seq(|bounds|, i requires 0 <= i < |bounds| => BoundDoc(bounds[i]))
  }

  function PathsOf(v: FilterValue): seq<str> { if v.Paths? then v.paths else [] }
  function PeriodOf(v: FilterValue): str { if v.Timebased? then v.period else [] }
  function BoundsOf(v: FilterValue): seq<Bound> { if v.Range? then v.bounds else [] }
  function ChangeOf(v: FilterValue): (str, str) { if v.Change? then (v.op, v.diff) else ([], []) }
  function CurvelogOf(v: FilterValue): (str, str) { if v.Curvelog? then (v.maxErr, v.bufSize) else ([], []) }
  function HistoryOf(v: FilterValue): str { if v.History? then v.timePeriod else [] }
  function TreeOf(v: FilterValue): str { if v.Metadata? then v.tree else [] }

  function VariantName(variant: int): text {
    match variant
    case 0 => Chars("paths")
    case 1 => Chars("timebased")
    case 2 => Chars("range")
    case 3 => Chars("change")
    case 4 => Chars("curvelog")
    case 5 => Chars("history")
    case 6 => Chars("metadata")
    case _ => []
  }

  /** The parameter of a filter is chosen by its variant, whichever value is filled in. */
  function ParameterDoc(f: Filter): Doc {
    match f.variant
    case 0 => if PathsOf(f.value) == [] then Text([]) else OneOrMany(PathDocs(PathsOf(f.value)))
    case 1 => Single(PeriodKey, Text(PeriodOf(f.value)))
    case 2 => if BoundsOf(f.value) == [] then Record([]) else OneOrMany(BoundDocs(BoundsOf(f.value)))
    case 3 => Pair(LogicOpKey, Text(ChangeOf(f.value).0), DiffKey, Text(ChangeOf(f.value).1))
    case 4 => Pair(MaxErrKey, Text(CurvelogOf(f.value).0), BufSizeKey, Text(CurvelogOf(f.value).1))
    case 5 => Text(HistoryOf(f.value))
    case _ => Raw(if f.variant == 6 then TreeOf(f.value) else [], Word([]))
  }

  function FilterDoc(f: Filter): Doc {
    Pair(VariantKey, Text(VariantName(f.variant)), ParameterKey, ParameterDoc(f))
  }

  function FilterDocs(fs: seq<Filter>): seq<Doc> {
    seq(|fs|, i requires 0 <= i < |fs| => FilterDoc(fs[i]))
  }

  function FiltersDoc(filters: Option<seq<Filter>>): Option<Doc> {
    if filters.None? || filters.value == [] then None else Some(OneOrMany(FilterDocs(filters.value)))
  }

  function PointDoc(p: DataPoint): Doc {
    Pair(ValueKey, Escaped(p.value), TsKey, Escaped(p.ts))
  }

  function PointDocs(ps: seq<DataPoint>): seq<Doc> {
    seq(|ps|, i requires 0 <= i < |ps| => PointDoc(ps[i]))
  }

  function PackageDoc(p: DataPackage): Doc {
    Pair(PathKey, Escaped(p.path), DpKey, if p.points == [] then Record([]) else OneOrMany(PointDocs(p.points)))
  }

  function PackageDocs(ps: seq<DataPackage>): seq<Doc> {
    seq(|ps|, i requires 0 <= i < |ps| => PackageDoc(ps[i]))
  }

  function DataDoc(a: Answer): Option<Doc> {
    if a.Data? && a.packages != [] then Some(OneOrMany(PackageDocs(a.packages))) else None
  }

  function ErrorDoc(e: ErrorResponse): Doc {
    Record([(Name(NumberKey), Escaped(e.number)), (Name(ReasonKey), Escaped(e.reason)),
            (Name(DescriptionKey), Escaped(e.description))])
  }

  /** A member that is left out when its string is empty. */
  function NonEmpty(s: str): Option<Doc> {
    if s == [] then None else Some(Text(s))
  }

  function OrEmpty(s: Option<str>): str { if s.Some? then s.value else [] }

  function ActionName(m: Message): text {
    match m
    case GetRequest(_, _, _, _, _) => Chars("get")
    case GetResponse(_, _, _, _) => Chars("get")
    case SetRequest(_, _, _, _) => Chars("set")
    case SetResponse(_, _, _, _) => Chars("set")
    case SubscribeRequest(_, _, _, _, _) => Chars("subscribe")
    case SubscribeResponse(_, _, _, _, _) => Chars("subscribe")
    case SubscribeEvent(_, _, _) => Chars("subscription")
    case UnsubscribeRequest(_, _) => Chars("unsubscribe")
    case UnsubscribeResponse(_, _, _) => Chars("unsubscribe")
  }

  /** The order in which a message's members are printed. */
  function Order(m: Message): seq<Key> {
    match m
    case GetRequest(_, _, _, _, _) => [ActionKey, PathKey, FilterKey, AuthorizationKey, DcKey, RequestIdKey]
    case GetResponse(_, _, _, _) => [ActionKey, DataKey, ErrorKey, TsKey, RequestIdKey, AuthorizationKey]
    case SetRequest(_, _, _, _) => [ActionKey, PathKey, ValueKey, AuthorizationKey, RequestIdKey]
    case SetResponse(_, _, _, _) => [ActionKey, ErrorKey, TsKey, RequestIdKey, AuthorizationKey]
    case SubscribeRequest(_, _, _, _, _) => [ActionKey, PathKey, FilterKey, AuthorizationKey, DcKey, RequestIdKey]
    case SubscribeResponse(_, _, _, _, _) =>
      [ActionKey, ErrorKey, TsKey, SubscriptionIdKey, RequestIdKey, AuthorizationKey]
    case SubscribeEvent(_, _, _) => [ActionKey, DataKey, ErrorKey, TsKey, SubscriptionIdKey]
    case UnsubscribeRequest(_, _) => [ActionKey, SubscriptionIdKey, RequestIdKey]
    case UnsubscribeResponse(_, _, _) => [ActionKey, ErrorKey, TsKey, RequestIdKey]
  }

  function ErrorOf(m: Message): Option<ErrorResponse> {
    if m.GetResponse? || m.SubscribeEvent? then (if m.answer.Failed? then Some(m.answer.error) else None)
    else if m.SetResponse? || m.SubscribeResponse? || m.UnsubscribeResponse? then m.error
    else None
  }

  /** What is printed for one member, if anything. */
  function Field(m: Message, k: Key): Option<Doc> {
    match k
    case ActionKey => Some(Text(ActionName(m)))
    case PathKey =>
      if m.GetRequest? || m.SetRequest? || m.SubscribeRequest? then Some(Text(m.path)) else None
    case ValueKey => if m.SetRequest? then Some(Text(m.value)) else None
    case FilterKey => if m.GetRequest? || m.SubscribeRequest? then FiltersDoc(m.filters) else None
    case DataKey => if m.GetResponse? || m.SubscribeEvent? then DataDoc(m.answer) else None
    case ErrorKey => if ErrorOf(m).Some? then Some(ErrorDoc(ErrorOf(m).value)) else None
    case TsKey =>
      if m.GetResponse? || m.SetResponse? || m.SubscribeResponse? || m.SubscribeEvent? || m.UnsubscribeResponse?
      then Some(Text(m.ts)) else None
    case DcKey => if m.GetRequest? || m.SubscribeRequest? then NonEmpty(OrEmpty(m.dc)) else None
    case AuthorizationKey =>
      if m.SubscribeEvent? || m.UnsubscribeRequest? || m.UnsubscribeResponse? then None
      else NonEmpty(OrEmpty(m.authorization))
    case RequestIdKey => if m.SubscribeEvent? then None else NonEmpty(m.requestId)
    case SubscriptionIdKey =>
      if m.SubscribeResponse? then NonEmpty(OrEmpty(m.given))
      else if m.SubscribeEvent? || m.UnsubscribeRequest? then NonEmpty(m.subscriptionId)
      else None
    case _ => None
  }

  function Fields(m: Message, order: seq<Key>): seq<(text, Doc)> {
    if order == [] then []
    else
      var d := Field(m, order[0]);
      (if d.Some? then [(Name(order[0]), d.value)] else []) + Fields(m, order[1..])
  }

  /** The JSON text of a message. */
  function Print(m: Message): text {
    Put(Record(Fields(m, Order(m))), [])
  }

  /** The loops that print lists: a comma behind every element, the last one trimmed. */
  method PrintList(docs: seq<Doc>) returns (r: text)
    requires docs != []
    ensures r == Put(OneOrMany(docs), [])
  {
    hide Put, PutItems, OneOrMany, WithCommas;
    r := [];
    NoCommas();
    var i := 0;
    while i < |docs|
      invariant 0 <= i <= |docs|
      invariant r == WithCommas(docs[..i])
    {
      assert docs[..i + 1] == docs[..i] + [docs[i]];
      WithCommasSnoc(docs[..i], docs[i]);
      r := r + Put(docs[i], []) + [COMMA];
      i := i + 1;
    }
    assert docs[..i] == docs;
    TrimmedList(docs);
    if r != [] && r[|r| - 1] == COMMA {
      r := r[..|r| - 1];
    }
    assert r == PutItems(docs, []);
    PutOneOrMany(docs);
    if |docs| > 1 {
      r := [OPEN_BRACKET] + r + [CLOSE_BRACKET];
    }
  }

  function WithCommas(docs: seq<Doc>): text {
    if docs == [] then [] else Put(docs[0], []) + [COMMA] + WithCommas(docs[1..])
  }

  lemma {:induction false} WithCommasSnoc(docs: seq<Doc>, d: Doc)
    ensures WithCommas(docs + [d]) == WithCommas(docs) + Put(d, []) + [COMMA]
  {
    hide Put;
    if docs == [] {
      assert (docs + [d])[1..] == [];
    } else {
      assert (docs + [d])[1..] == docs[1..] + [d];
      WithCommasSnoc(docs[1..], d);
    }
  }

  lemma {:induction false} TrimmedList(docs: seq<Doc>)
    requires docs != []
    ensures WithCommas(docs) == PutItems(docs, []) + [COMMA]
  {
    hide Put;
    if |docs| > 1 {
      TrimmedList(docs[1..]);
      var rest := [COMMA] + PutItems(docs[1..], []);
      PutAppend(docs[0], [], rest);
      assert [] + rest == rest;
    }
  }

  lemma NoCommas()
    ensures WithCommas([]) == []
  {
  }

  lemma {:induction false} PutOneOrMany(docs: seq<Doc>)
    requires docs != []
    ensures var items := PutItems(docs, []);
            Put(OneOrMany(docs), []) == if |docs| > 1 then [OPEN_BRACKET] + items + [CLOSE_BRACKET] else items
  {
    hide PutItems;
    if |docs| == 1 {
      PutItemsOne(docs);
    } else {
      PutItemsAppend(docs, [], [CLOSE_BRACKET]);
      assert [] + [CLOSE_BRACKET] == [CLOSE_BRACKET] + [];
    }
  }

  lemma PutItemsOne(docs: seq<Doc>)
    requires |docs| == 1
    ensures PutItems(docs, []) == Put(docs[0], [])
  {
  }

  // ----- reading -----

  type Members = seq<(text, Term)>

  /** The value of a member; the last one of a repeated name counts. */
  function Member(ms: Members, k: Key): Option<Term> {
    if ms == [] then None
    else if Member(ms[1..], k).Some? then Member(ms[1..], k)
    else if ms[0].0 == Name(k) then Some(ms[0].1)
    else None
  }

  function Null(): Term { Word(Chars("null")) }

  predicate IsNil(t: Option<Term>) { t == None || t == Some(Null()) }

  /** Code units that are no scalar value are read as the replacement character. */
  function Runes(t: text): str {
    seq(|t|, i requires 0 <= i < |t| => if 0 <= t[i] < 0xD800 || 0xE000 <= t[i] < 0x11_0000 then t[i] else 0xFFFD)
  }

  function AsString(t: Option<Term>): Option<str> {
    if t.Some? && t.value.Str? then Some(Runes(t.value.chars)) else None
  }

  function StringAt(ms: Members, k: Key): Option<str> { AsString(Member(ms, k)) }

  function StringOrEmpty(ms: Members, k: Key): str { OrEmpty(StringAt(ms, k)) }

  function Objects(items: seq<Term>): seq<Members> {
    if items == [] then []
    else (if items[0].Obj? then [items[0].members] else []) + Objects(items[1..])
  }

  /** The objects of a list, or an object by itself; anything else is skipped. */
  function ObjectsOf(t: Option<Term>): seq<Members> {
    match t
    case Some(Arr(items)) => Objects(items)
    case Some(Obj(members)) => [members]
    case _ => []
  }

  function ReadPoint(ms: Members): DataPoint {
    DataPoint(StringOrEmpty(ms, ValueKey), StringOrEmpty(ms, TsKey))
  }

  function ReadPoints(os: seq<Members>): seq<DataPoint> {
    seq(|os|, i requires 0 <= i < |os| => ReadPoint(os[i]))
  }

  function ReadPackage(ms: Members): DataPackage {
    DataPackage(StringOrEmpty(ms, PathKey), ReadPoints(ObjectsOf(Member(ms, DpKey))))
  }

  function ReadPackages(os: seq<Members>): seq<DataPackage> {
    seq(|os|, i requires 0 <= i < |os| => ReadPackage(os[i]))
  }

  function ReadBound(ms: Members): Bound {
    Bound(StringOrEmpty(ms, LogicOpKey), StringOrEmpty(ms, BoundaryKey))
  }

  function ReadBounds(os: seq<Members>): seq<Bound> {
    seq(|os|, i requires 0 <= i < |os| => ReadBound(os[i]))
  }

  function Strings(items: seq<Term>): seq<str> {
    if items == [] then []
    else (if items[0].Str? then [Runes(items[0].chars)] else []) + Strings(items[1..])
  }

  function ReadPaths(t: Option<Term>): seq<str> {
    match t
    case Some(Arr(items)) => Strings(items)
    case Some(Str(chars)) => [Runes(chars)]
    case _ => []
  }

  function VariantOf(name: text): int {
    if name == Chars("paths") then 0
    else if name == Chars("timebased") then 1
    else if name == Chars("range") then 2
    else if name == Chars("change") then 3
    else if name == Chars("curvelog") then 4
    else if name == Chars("history") then 5
    else if name == Chars("metadata") then 6
    else 106
  }

  function ReadParameter(variant: int, p: Option<Term>): FilterValue {
    match variant
    case 0 => Paths(ReadPaths(p))
    case 1 => if p.Some? && p.value.Obj? then Timebased(StringOrEmpty(p.value.members, PeriodKey)) else Blank
    case 2 => Range(ReadBounds(ObjectsOf(p)))
    case 3 =>
      if p.Some? && p.value.Obj?
      then Change(StringOrEmpty(p.value.members, LogicOpKey), StringOrEmpty(p.value.members, DiffKey)) else Blank
    case 4 =>
      if p.Some? && p.value.Obj?
      then Curvelog(StringOrEmpty(p.value.members, MaxErrKey), StringOrEmpty(p.value.members, BufSizeKey)) else Blank
    case 5 => if AsString(p).Some? then History(AsString(p).value) else Blank
    case _ => Blank
  }

  function ReadFilter(ms: Members): Filter {
    var name := StringAt(ms, VariantKey);
    if name.None? then Filter(0, Unset)
    else
      var variant := VariantOf(name.value);
      Filter(variant, ReadParameter(variant, Member(ms, ParameterKey)))
  }

  /** One object, or a list of exactly two. */
  function ReadFilters(t: Option<Term>): Option<seq<Filter>> {
    match t
    case Some(Obj(members)) => Some([ReadFilter(members)])
    case Some(Arr(items)) =>
      if |items| == 2 && items[0].Obj? && items[1].Obj?
      then Some([ReadFilter(items[0].members), ReadFilter(items[1].members)]) else None
    case _ => None
  }

  function ReadErrorObject(ms: Members): ErrorResponse {
    ErrorResponse(StringOrEmpty(ms, NumberKey), StringOrEmpty(ms, ReasonKey), StringOrEmpty(ms, DescriptionKey))
  }

  /** An error that is present but no object is an error without details. */
  function ReadError(ms: Members): Option<ErrorResponse> {
    match Member(ms, ErrorKey)
    case None => None
    case Some(Obj(members)) => Some(ReadErrorObject(members))
    case _ => Some(ErrorResponse([], [], []))
  }

  function ElementCount(t: Option<Term>): nat {
    if IsNil(t) then 0 else if t.value.Arr? then |t.value.items| else 1
  }

  function ReadAnswer(ms: Members, withMetadata: bool): Answer {
    var e := ReadError(ms);
    if e.Some? then Failed(e.value)
    else if withMetadata && ElementCount(Member(ms, DataKey)) == 0 then
      var t := Member(ms, MetadataKey);
      MetadataOnly(if t.Some? then t.value else Null())
    else Data(ReadPackages(ObjectsOf(Member(ms, DataKey))))
  }

  /** `Refused` is a logged error, `Crashed` a failed type assertion. */
  datatype Parsed = Parsed(message: Message) | Refused | Crashed

  function FromMembers(ms: Members): Parsed {
    var action := StringAt(ms, ActionKey);
    var auth, id, ts := StringAt(ms, AuthorizationKey), StringOrEmpty(ms, RequestIdKey), StringOrEmpty(ms, TsKey);
    if action.None? then Crashed
    else if action.value == Chars("get") then
      if IsNil(Member(ms, PathKey)) then Parsed(GetResponse(ReadAnswer(ms, true), ts, id, auth))
      else Parsed(GetRequest(StringOrEmpty(ms, PathKey), ReadFilters(Member(ms, FilterKey)), auth, StringAt(ms, DcKey), id))
    else if action.value == Chars("set") then
      if IsNil(Member(ms, PathKey)) then Parsed(SetResponse(ReadError(ms), ts, id, auth))
      else Parsed(SetRequest(StringOrEmpty(ms, PathKey), StringOrEmpty(ms, ValueKey), auth, id))
    else if action.value == Chars("subscribe") then
      if IsNil(Member(ms, PathKey)) then
        Parsed(SubscribeResponse(ReadError(ms), if ReadError(ms).Some? then None else StringAt(ms, SubscriptionIdKey), ts, id, auth))
      else Parsed(SubscribeRequest(StringOrEmpty(ms, PathKey), ReadFilters(Member(ms, FilterKey)), auth, StringAt(ms, DcKey), id))
    else if action.value == Chars("unsubscribe") then
      if !IsNil(Member(ms, TsKey)) then Parsed(UnsubscribeResponse(ReadError(ms), ts, id))
      else Parsed(UnsubscribeRequest(StringOrEmpty(ms, SubscriptionIdKey), id))
    else if action.value == Chars("subscription") then
      Parsed(SubscribeEvent(ReadAnswer(ms, false), StringOrEmpty(ms, SubscriptionIdKey), ts))
    else Refused
  }

  /** The message a JSON text stands for. */
  function Parse(s: text): Parsed {
    match ReadValue(s)
    case None => Refused
    case Some((t, rest)) =>
      if SkipSpace(rest) != [] then Refused
      else if t == Null() then FromMembers([])
      else if t.Obj? then FromMembers(t.members)
      else Refused
  }

  // ----- the loops that fill message fields -----

  /** The object at a position of a list; an object by itself stands at every position. */
  function ObjectAt(t: Option<Term>, i: nat): Option<Members> {
    match t
    case Some(Arr(items)) => if i < |items| && items[i].Obj? then Some(items[i].members) else None
    case Some(Obj(members)) => Some(members)
    case _ => None
  }

  function ObjectsUpTo(t: Option<Term>, n: nat): seq<Members> {
    if n == 0 then []
    else
      var o := ObjectAt(t, n - 1);
      ObjectsUpTo(t, n - 1) + if o.Some? then [o.value] else []
  }

  lemma {:induction false} ObjectsSnoc(items: seq<Term>, n: nat)
    requires n < |items|
    ensures Objects(items[..n + 1]) == Objects(items[..n]) + if items[n].Obj? then [items[n].members] else []
    decreases n
  {
    if n == 0 {
      assert items[..1] == [items[0]] && [items[0]][1..] == [];
    } else {
      assert items[..n + 1][1..] == items[1..][..n] && items[..n][1..] == items[1..][..n - 1];
      ObjectsSnoc(items[1..], n - 1);
    }
  }

  lemma NoObjects()
    ensures Objects([]) == []
  {
  }

  lemma {:induction false} ObjectsCollected(t: Option<Term>, n: nat)
    requires if t.Some? && t.value.Arr? then n <= |t.value.items| else n == 1 || (n == 0 && IsNil(t))
    ensures ObjectsUpTo(t, n) == if t.Some? && t.value.Arr? then Objects(t.value.items[..n]) else ObjectsOf(t)
  {
    hide Chars, Objects;
    if t.Some? && t.value.Arr? {
      if n == 0 {
        NoObjects();
        assert t.value.items[..0] == [];
      } else {
        ObjectsCollected(t, n - 1);
        ObjectsSnoc(t.value.items, n - 1);
      }
    } else if n == 1 {
      assert ObjectsUpTo(t, 0) == [];
    }
  }

  lemma {:induction false} AllCollected(t: Option<Term>, n: nat)
    requires n == ElementCount(t) || (IsNil(t) && n == 1)
    ensures ObjectsUpTo(t, n) == ObjectsOf(t)
  {
    hide Objects, ObjectsUpTo;
    ObjectsCollected(t, n);
    if t.Some? && t.value.Arr? {
      assert t.value.items[..n] == t.value.items;
    }
  }

  method CreateDataPoints(dp: Option<Term>) returns (ps: seq<DataPoint>)
    ensures ps == ReadPoints(ObjectsOf(dp))
  {
    hide ReadPoint, ObjectAt, ElementCount;
    ps := [];
    var i := 0;
    while i < ElementCount(dp)
      invariant 0 <= i <= ElementCount(dp)
      invariant ps == ReadPoints(ObjectsUpTo(dp, i))
    {
      var o := ObjectAt(dp, i);
      if o.Some? {
        ps := ps + [ReadPoint(o.value)];
      }
      i := i + 1;
    }
    AllCollected(dp, i);
  }

  method CreateDataPackages(data: Option<Term>) returns (ps: seq<DataPackage>)
    ensures ps == ReadPackages(ObjectsOf(data))
  {
    hide ObjectAt, ElementCount, StringOrEmpty, Member;
    ps := [];
    var i := 0;
    while i < ElementCount(data)
      invariant 0 <= i <= ElementCount(data)
      invariant ps == ReadPackages(ObjectsUpTo(data, i))
    {
      var o := ObjectAt(data, i);
      if o.Some? {
        var points := CreateDataPoints(Member(o.value, DpKey));
        ps := ps + [DataPackage(StringOrEmpty(o.value, PathKey), points)];
      }
      i := i + 1;
    }
    AllCollected(data, i);
  }

  method CreateRange(parameter: Option<Term>) returns (bounds: seq<Bound>)
    ensures bounds == ReadBounds(ObjectsOf(parameter))
  {
    hide ReadBound, ObjectAt;
    var n := if parameter.Some? && parameter.value.Arr? then |parameter.value.items| else 1;
    bounds := [];
    var i := 0;
    while i < n
      invariant 0 <= i <= n
      invariant bounds == ReadBounds(ObjectsUpTo(parameter, i))
    {
      var o := ObjectAt(parameter, i);
      if o.Some? {
        bounds := bounds + [ReadBound(o.value)];
      }
      i := i + 1;
    }
    AllCollected(parameter, i);
  }

  lemma {:induction false} StringsSnoc(items: seq<Term>, n: nat)
    requires n < |items|
    ensures Strings(items[..n + 1]) == Strings(items[..n]) + if items[n].Str? then [Runes(items[n].chars)] else []
    decreases n
  {
    hide Runes;
    if n == 0 {
      assert items[..1] == [items[0]] && [items[0]][1..] == [];
    } else {
      assert items[..n + 1][1..] == items[1..][..n] && items[..n][1..] == items[1..][..n - 1];
      StringsSnoc(items[1..], n - 1);
    }
  }

  method CreatePaths(parameter: Option<Term>) returns (paths: seq<str>)
    ensures paths == ReadPaths(parameter)
  {
    hide Runes;
    paths := [];
    match parameter
    case Some(Arr(items)) =>
      var i := 0;
      while i < |items|
        invariant 0 <= i <= |items|
        invariant paths == Strings(items[..i])
      {
        StringsSnoc(items, i);
        if items[i].Str? {
          paths := paths + [Runes(items[i].chars)];
        }
        i := i + 1;
      }
      assert items[..i] == items;
    case Some(Str(chars)) =>
      paths := [Runes(chars)];
    case _ =>
  }
}
