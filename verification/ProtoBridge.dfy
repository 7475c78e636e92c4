/** Protobuf to JSON and back: what survives, what is normalised, and which strings need escaping. */
module ProtoBridge {
  import opened ByteStrings
  import opened JsonText
  import opened JsonEscape
  import opened ProtoMessages

  // ----- strings -----

  lemma {:induction false} ReadCharsLength(s: text)
    requires ReadChars(s).Some?
    ensures |s| >= |ReadChars(s).value.0| + 1 + |ReadChars(s).value.1|
    decreases |s|
  {
    hide ReadChar;
    if s[0] != QUOTE {
      ReadCharsLength(ReadChar(s).value.1);
    }
  }

  /** Printed between quotes without escaping, exactly the plain strings are read back. */
  lemma {:induction false} UnescapedIff(s: text, rest: text)
    ensures ReadChars(s + [QUOTE] + rest) == Some((s, rest)) <==> Plain(s)
    decreases |s|
  {
    hide ReadChar;
    var all := s + [QUOTE] + rest;
    if Plain(s) {
      ReadPlain(s, rest);
    } else if ReadChars(all) == Some((s, rest)) {
      var c := ReadChar(all).value;
      ReadCharsLength(c.1);
      ReadCharStep(all);
      assert c.1 == s[1..] + [QUOTE] + rest && s == [s[0]] + s[1..];
      UnescapedIff(s[1..], rest);
    }
  }

  /** A character that takes one place stands for itself; an escaped one takes at least two. */
  lemma ReadCharStep(s: text)
    requires ReadChar(s).Some?
    ensures var (c, r) := ReadChar(s).value;
            |r| <= |s| - 2 || (c == s[0] && r == s[1..] && Plain([c]))
  {
  }

  lemma RunesId(s: str)
    ensures Runes(s) == s
  {
  }

  lemma {:induction false} EscapedIsDoc(s: str)
    ensures Printable(Escaped(s)) && TermOf(Escaped(s)) == Str(s)
  {
    hide EscapeAll, ReadChars;
    var json := [QUOTE] + EscapeAll(s) + [QUOTE];
    ReadEscaped(s, []);
    assert json[1..] == EscapeAll(s) + [QUOTE] + [];
    NoSkip(json);
  }

  // ----- members -----

  /** Names can be told apart by their length and their first two letters. */
  function KeyOf(name: text): Key {
    if |name| < 2 then ActionKey
    else
      var c := name[0] as int;
      match |name|
      case 2 => if c == 't' as int then TsKey else if name[1] == 'c' as int then DcKey else DpKey
      case 4 => if c == 'p' as int then PathKey else if name[1] == 'a' as int then DataKey else DiffKey
      case 5 => if c == 'v' as int then ValueKey else ErrorKey
      case 6 =>
        if c == 'a' as int then ActionKey else if c == 'f' as int then FilterKey
        else if c == 'p' as int then PeriodKey else if c == 'm' as int then MaxErrKey
        else if c == 'n' as int then NumberKey else ReasonKey
      case 7 => if c == 'v' as int then VariantKey else BufSizeKey
      case 8 => if c == 'm' as int then MetadataKey else if c == 'l' as int then LogicOpKey else BoundaryKey
      case 9 => if c == 'p' as int then ParameterKey else RequestIdKey
      case 11 => DescriptionKey
      case 13 => AuthorizationKey
      case _ => SubscriptionIdKey
  }

  lemma NameIdentifies(k: Key)
    ensures KeyOf(Name(k)) == k
  {
  }

  predicate Letters(s: string) {
    forall i :: 0 <= i < |s| ==> ' ' < s[i] < 127 as char && s[i] != '\"' && s[i] != '\\'
  }

  lemma LettersPlain(s: string)
    requires Letters(s)
    ensures Plain(Chars(s)) && Runes(Chars(s)) == Chars(s)
  {
  }

  lemma ShortPlain(k: Key)
    requires |Name(k)| <= 5
    ensures Plain(Name(k))
  {
  }

  lemma SixPlain(k: Key)
    requires 6 <= |Name(k)| <= 7
    ensures Plain(Name(k))
  {
  }

  lemma EightPlain(k: Key)
    requires 8 <= |Name(k)| <= 9
    ensures Plain(Name(k))
  {
  }

  lemma LongPlain(k: Key)
    requires |Name(k)| > 9
    ensures Plain(Name(k))
  {
  }

  lemma {:induction false} NamePlain(k: Key)
    ensures Plain(Name(k))
  {
    hide Plain, Name;
    if |Name(k)| <= 5 {
      ShortPlain(k);
    } else if |Name(k)| <= 7 {
      SixPlain(k);
    } else if |Name(k)| <= 9 {
      EightPlain(k);
    } else {
      LongPlain(k);
    }
  }

  lemma {:induction false} MemberCons(k: Key, t: Term, ms: Members, j: Key)
    ensures var found := Member(ms, j);
            Member([(Name(k), t)] + ms, j) == if found.Some? then found else if j == k then Some(t) else None
  {
    hide Name, KeyOf;
    NameIdentifies(k);
    NameIdentifies(j);
    assert ([(Name(k), t)] + ms)[1..] == ms;
  }

  lemma {:induction false} PairMember(k: Key, d: Doc, k': Key, d': Doc, j: Key)
    requires k != k'
    ensures var ms := TermsOf([(Name(k), d), (Name(k'), d')]);
            Member(ms, j) == if j == k then Some(TermOf(d)) else if j == k' then Some(TermOf(d')) else None
  {
    hide Name, Member, TermOf, TermsOf;
    TermsCons((Name(k'), d'), []);
    TermsCons((Name(k), d), [(Name(k'), d')] + []);
    assert [(Name(k), d), (Name(k'), d')] == [(Name(k), d)] + ([(Name(k'), d')] + []);
    MemberNone(j);
    MemberCons(k', TermOf(d'), [], j);
    MemberCons(k, TermOf(d), [(Name(k'), TermOf(d'))] + [], j);
  }

  lemma {:induction false} PairMembers(k: Key, d: Doc, k': Key, d': Doc)
    requires k != k'
    ensures var p := Pair(k, d, k', d');
            && (Printable(d) && Printable(d') ==> Printable(p))
            && TermOf(p).Obj?
            && Member(TermOf(p).members, k) == Some(TermOf(d))
            && Member(TermOf(p).members, k') == Some(TermOf(d'))
  {
    hide Name, Member, Plain, TermsOf;
    NamePlain(k);
    NamePlain(k');
    PairMember(k, d, k', d', k);
    PairMember(k, d, k', d', k');
  }

  lemma MemberNone(k: Key)
    ensures Member([], k) == None && TermsOf([]) == []
  {
  }

  lemma {:induction false} TermsCons(f: (text, Doc), rest: seq<(text, Doc)>)
    ensures TermsOf([f] + rest) == [(f.0, TermOf(f.1))] + TermsOf(rest)
  {
    hide TermOf;
    assert ([f] + rest)[1..] == rest;
  }

  lemma {:induction false} SingleMember(k: Key, d: Doc)
    ensures var p := Single(k, d);
            && (Printable(d) ==> Printable(p))
            && TermOf(p).Obj? && Member(TermOf(p).members, k) == Some(TermOf(d))
  {
    hide Name, Member, Plain;
    NamePlain(k);
    MemberNone(k);
    MemberCons(k, TermOf(d), [], k);
    assert TermsOf([(Name(k), d)]) == [(Name(k), TermOf(d))] + [];
  }

  lemma {:induction false} ErrorMember(e: ErrorResponse, k: Key)
    ensures var ms := TermsOf(ErrorDoc(e).fields);
            && (k == NumberKey ==> Member(ms, k) == Some(Str(e.number)))
            && (k == ReasonKey ==> Member(ms, k) == Some(Str(e.reason)))
            && (k == DescriptionKey ==> Member(ms, k) == Some(Str(e.description)))
  {
    hide Name, Member, Escaped, TermsOf, TermOf;
    var fs := ErrorDoc(e).fields;
    EscapedIsDoc(e.number);
    EscapedIsDoc(e.reason);
    EscapedIsDoc(e.description);
    assert fs == [fs[0]] + [fs[1], fs[2]];
    TermsCons(fs[0], [fs[1], fs[2]]);
    PairMember(ReasonKey, Escaped(e.reason), DescriptionKey, Escaped(e.description), k);
    MemberCons(NumberKey, Str(e.number), TermsOf([fs[1], fs[2]]), k);
  }

  lemma {:induction false} ErrorBack(e: ErrorResponse)
    ensures Printable(ErrorDoc(e)) && TermOf(ErrorDoc(e)).Obj? && ReadErrorObject(TermOf(ErrorDoc(e)).members) == e
  {
    hide Name, Member, Plain, Escaped, Runes, TermsOf;
    NamePlain(NumberKey);
    NamePlain(ReasonKey);
    NamePlain(DescriptionKey);
    EscapedIsDoc(e.number);
    EscapedIsDoc(e.reason);
    EscapedIsDoc(e.description);
    ErrorMember(e, NumberKey);
    ErrorMember(e, ReasonKey);
    ErrorMember(e, DescriptionKey);
    RunesId(e.number);
    RunesId(e.reason);
    RunesId(e.description);
  }

  // ----- lists: one element by itself, more between brackets -----

  lemma {:induction false} AllObjects(items: seq<Term>)
    requires forall i :: 0 <= i < |items| ==> items[i].Obj?
    ensures |Objects(items)| == |items|
    ensures forall i :: 0 <= i < |items| ==> Objects(items)[i] == items[i].members
  {
    if items != [] {
      AllObjects(items[1..]);
    }
  }

  /** Both printed forms of a list of objects are read as the same list. */
  lemma {:induction false} ManyObjects(docs: seq<Doc>)
    requires docs != [] && forall i :: 0 <= i < |docs| ==> TermOf(docs[i]).Obj?
    ensures var os := ObjectsOf(Some(TermOf(OneOrMany(docs))));
            |os| == |docs| && forall i :: 0 <= i < |docs| ==> os[i] == TermOf(docs[i]).members
    ensures (forall i :: 0 <= i < |docs| ==> Printable(docs[i])) ==> Printable(OneOrMany(docs))
    ensures !IsNil(Some(TermOf(OneOrMany(docs)))) && ElementCount(Some(TermOf(OneOrMany(docs)))) == |docs|
  {
    if |docs| > 1 {
      AllObjects(ItemTerms(docs));
    }
  }

  lemma {:induction false} AllStrings(items: seq<Term>)
    requires forall i :: 0 <= i < |items| ==> items[i].Str?
    ensures |Strings(items)| == |items|
    ensures forall i :: 0 <= i < |items| ==> Strings(items)[i] == Runes(items[i].chars)
  {
    if items != [] {
      AllStrings(items[1..]);
    }
  }

  lemma {:induction false} PathsBack(paths: seq<str>)
    requires paths != []
    ensures Printable(OneOrMany(PathDocs(paths)))
    ensures ReadPaths(Some(TermOf(OneOrMany(PathDocs(paths))))) == paths
  {
    hide Escaped, Runes;
    var docs := PathDocs(paths);
    forall i | 0 <= i < |paths|
      ensures Printable(docs[i]) && TermOf(docs[i]) == Str(paths[i]) && Runes(paths[i]) == paths[i]
    {
      EscapedIsDoc(paths[i]);
      RunesId(paths[i]);
    }
    if |docs| > 1 {
      AllStrings(ItemTerms(docs));
    }
  }

  lemma {:induction false} BoundBack(b: Bound)
    ensures Printable(BoundDoc(b)) && TermOf(BoundDoc(b)).Obj? && ReadBound(TermOf(BoundDoc(b)).members) == b
  {
    hide Pair, Escaped, Runes, Member;
    EscapedIsDoc(b.op);
    EscapedIsDoc(b.boundary);
    PairMembers(LogicOpKey, Escaped(b.op), BoundaryKey, Escaped(b.boundary));
    RunesId(b.op);
    RunesId(b.boundary);
  }

  lemma {:induction false} BoundsBack(bounds: seq<Bound>)
    requires bounds != []
    ensures Printable(OneOrMany(BoundDocs(bounds)))
    ensures ReadBounds(ObjectsOf(Some(TermOf(OneOrMany(BoundDocs(bounds)))))) == bounds
  {
    hide BoundDoc, ReadBound, OneOrMany, ObjectsOf, IsNil, ElementCount;
    var docs := BoundDocs(bounds);
    forall i | 0 <= i < |bounds|
      ensures Printable(docs[i]) && TermOf(docs[i]).Obj? && ReadBound(TermOf(docs[i]).members) == bounds[i]
    {
      BoundBack(bounds[i]);
    }
    ManyObjects(docs);
  }

  lemma {:induction false} PointBack(p: DataPoint)
    ensures Printable(PointDoc(p)) && TermOf(PointDoc(p)).Obj? && ReadPoint(TermOf(PointDoc(p)).members) == p
  {
    hide Pair, Escaped, Runes, Member;
    EscapedIsDoc(p.value);
    EscapedIsDoc(p.ts);
    PairMembers(ValueKey, Escaped(p.value), TsKey, Escaped(p.ts));
    RunesId(p.value);
    RunesId(p.ts);
  }

  lemma {:induction false} PointsBack(ps: seq<DataPoint>)
    requires ps != []
    ensures Printable(OneOrMany(PointDocs(ps)))
    ensures ReadPoints(ObjectsOf(Some(TermOf(OneOrMany(PointDocs(ps)))))) == ps
  {
    hide PointDoc, ReadPoint, OneOrMany, ObjectsOf, IsNil, ElementCount;
    var docs := PointDocs(ps);
    forall i | 0 <= i < |ps|
      ensures Printable(docs[i]) && TermOf(docs[i]).Obj? && ReadPoint(TermOf(docs[i]).members) == ps[i]
    {
      PointBack(ps[i]);
    }
    ManyObjects(docs);
  }

  // ----- the normal form -----

  function CanonPackage(p: DataPackage): DataPackage {
    if p.points == [] then DataPackage(p.path, [DataPoint([], [])]) else p
  }

  function CanonPackages(ps: seq<DataPackage>): seq<DataPackage> {
    seq(|ps|, i requires 0 <= i < |ps| => CanonPackage(ps[i]))
  }

  function CanonFilter(f: Filter): Filter {
    var v := f.value;
    Filter(f.variant,
           match f.variant
           case 0 => Paths(if PathsOf(v) == [] then [[]] else PathsOf(v))
           case 1 => Timebased(PeriodOf(v))
           case 2 => Range(if BoundsOf(v) == [] then [Bound([], [])] else BoundsOf(v))
           case 3 => Change(ChangeOf(v).0, ChangeOf(v).1)
           case 4 => Curvelog(CurvelogOf(v).0, CurvelogOf(v).1)
           case 5 => History(HistoryOf(v))
           case _ => v)
  }

  function CanonFilters(fs: Option<seq<Filter>>): Option<seq<Filter>> {
    if fs.None? then None
    else if |fs.value| == 1 then Some([CanonFilter(fs.value[0])])
    else if |fs.value| == 2 then Some([CanonFilter(fs.value[0]), CanonFilter(fs.value[1])])
    else None
  }

  function CanonString(s: Option<str>): Option<str> {
    if s == Some([]) then None else s
  }

  function CanonAnswer(a: Answer, withMetadata: bool): Answer {
    match a
    case Failed(_) => a
    case Data(ps) => if withMetadata && ps == [] then MetadataOnly(Null()) else Data(CanonPackages(ps))
    case MetadataOnly(_) => if withMetadata then MetadataOnly(Null()) else Data([])
  }

  /** What comes out at the other end. */
  function Canon(m: Message): Message {
    match m
    case GetRequest(path, filters, auth, dc, id) =>
      GetRequest(path, CanonFilters(filters), CanonString(auth), CanonString(dc), id)
    case GetResponse(answer, ts, id, auth) => GetResponse(CanonAnswer(answer, true), ts, id, CanonString(auth))
    case SetRequest(path, value, auth, id) => SetRequest(path, value, CanonString(auth), id)
    case SetResponse(error, ts, id, auth) => SetResponse(error, ts, id, CanonString(auth))
    case SubscribeRequest(path, filters, auth, dc, id) =>
      SubscribeRequest(path, CanonFilters(filters), CanonString(auth), CanonString(dc), id)
    case SubscribeResponse(error, given, ts, id, auth) =>
      SubscribeResponse(error, if error.Some? then None else CanonString(given), ts, id, CanonString(auth))
    case SubscribeEvent(answer, sub, ts) => SubscribeEvent(CanonAnswer(answer, false), sub, ts)
    case UnsubscribeRequest(sub, id) => m
    case UnsubscribeResponse(error, ts, id) => m
  }

  /** A value of the alternative its variant asks for, with no empty list. */
  predicate NormalFilter(f: Filter) {
    match f.variant
    case 0 => f.value.Paths? && f.value.paths != []
    case 1 => f.value.Timebased?
    case 2 => f.value.Range? && f.value.bounds != []
    case 3 => f.value.Change?
    case 4 => f.value.Curvelog?
    case 5 => f.value.History?
    case _ => false
  }

  predicate NormalFilters(fs: Option<seq<Filter>>) {
    fs.Some? ==> 1 <= |fs.value| <= 2 && forall f :: f in fs.value ==> NormalFilter(f)
  }

  predicate NormalAnswer(a: Answer, withMetadata: bool) {
    match a
    case Failed(_) => true
    case Data(ps) => (withMetadata ==> ps != []) && forall p :: p in ps ==> p.points != []
    case MetadataOnly(t) => withMetadata && t == Null()
  }

  /** An optional string is absent rather than empty. */
  predicate NormalString(s: Option<str>) { s != Some([]) }

  predicate Normal(m: Message) {
    match m
    case GetRequest(_, filters, auth, dc, _) => NormalFilters(filters) && NormalString(auth) && NormalString(dc)
    case GetResponse(answer, _, _, auth) => NormalAnswer(answer, true) && NormalString(auth)
    case SetRequest(_, _, auth, _) => NormalString(auth)
    case SetResponse(_, _, _, auth) => NormalString(auth)
    case SubscribeRequest(_, filters, auth, dc, _) => NormalFilters(filters) && NormalString(auth) && NormalString(dc)
    case SubscribeResponse(error, given, _, _, auth) =>
      NormalString(auth) && NormalString(given) && (error.Some? ==> given.None?)
    case SubscribeEvent(answer, _, _) => NormalAnswer(answer, false)
    case UnsubscribeRequest(_, _) => true
    case UnsubscribeResponse(_, _, _) => true
  }

  /** The variants Protobuf supports, with plain strings where nothing is escaped. */
  predicate CleanFilter(f: Filter) {
    && 0 <= f.variant <= 5
    && Plain(PeriodOf(f.value)) && Plain(ChangeOf(f.value).0) && Plain(ChangeOf(f.value).1)
    && Plain(CurvelogOf(f.value).0) && Plain(CurvelogOf(f.value).1) && Plain(HistoryOf(f.value))
  }

  predicate CleanFilters(fs: Option<seq<Filter>>) {
    fs.Some? ==> forall f :: f in fs.value ==> CleanFilter(f)
  }

  /** No metacharacter in a string that is printed without escaping. */
  predicate Clean(m: Message) {
    match m
    case GetRequest(path, filters, auth, dc, id) =>
      Plain(path) && CleanFilters(filters) && Plain(OrEmpty(auth)) && Plain(OrEmpty(dc)) && Plain(id)
    case GetResponse(_, ts, id, auth) => Plain(ts) && Plain(id) && Plain(OrEmpty(auth))
    case SetRequest(path, value, auth, id) => Plain(path) && Plain(value) && Plain(OrEmpty(auth)) && Plain(id)
    case SetResponse(_, ts, id, auth) => Plain(ts) && Plain(id) && Plain(OrEmpty(auth))
    case SubscribeRequest(path, filters, auth, dc, id) =>
      Plain(path) && CleanFilters(filters) && Plain(OrEmpty(auth)) && Plain(OrEmpty(dc)) && Plain(id)
    case SubscribeResponse(_, given, ts, id, auth) =>
      Plain(OrEmpty(given)) && Plain(ts) && Plain(id) && Plain(OrEmpty(auth))
    case SubscribeEvent(_, sub, ts) => Plain(sub) && Plain(ts)
    case UnsubscribeRequest(sub, id) => Plain(sub) && Plain(id)
    case UnsubscribeResponse(_, ts, id) => Plain(ts) && Plain(id)
  }

  // ----- the parts of a message -----

  lemma {:induction false} EmptyObject()
    ensures Printable(Record([])) && TermOf(Record([])) == Obj([])
    ensures forall k :: Member([], k) == None
  {
  }

  lemma {:induction false} PackageBack(p: DataPackage)
    ensures var d := PackageDoc(p);
            Printable(d) && TermOf(d).Obj? && ReadPackage(TermOf(d).members) == CanonPackage(p)
  {
    hide Pair, Escaped, Runes, Member, OneOrMany, TermOf, Printable;
    EscapedIsDoc(p.path);
    RunesId(p.path);
    var d := if p.points == [] then Record([]) else OneOrMany(PointDocs(p.points));
    PairMembers(PathKey, Escaped(p.path), DpKey, d);
    if p.points == [] {
      EmptyObject();
    } else {
      PointsBack(p.points);
    }
  }

  lemma {:induction false} PackagesBack(ps: seq<DataPackage>)
    requires ps != []
    ensures var d := OneOrMany(PackageDocs(ps));
            && Printable(d) && ReadPackages(ObjectsOf(Some(TermOf(d)))) == CanonPackages(ps)
            && ElementCount(Some(TermOf(d))) == |ps|
  {
    hide PackageDoc, ReadPackage, OneOrMany, ObjectsOf, CanonPackage, IsNil, ElementCount;
    var docs := PackageDocs(ps);
    forall i | 0 <= i < |ps|
      ensures Printable(docs[i]) && TermOf(docs[i]).Obj? && ReadPackage(TermOf(docs[i]).members) == CanonPackage(ps[i])
    {
      PackageBack(ps[i]);
    }
    ManyObjects(docs);
  }

  /** The value of a filter is read back as the alternative its variant asks for. */
  lemma {:induction false} ParameterBack(f: Filter)
    requires CleanFilter(f)
    ensures Printable(ParameterDoc(f))
    ensures ReadParameter(f.variant, Some(TermOf(ParameterDoc(f)))) == CanonFilter(f).value
  {
    hide Pair, Single, Runes, Member, PathDocs, BoundDocs, OneOrMany, Plain;
    var v := f.value;
    match f.variant
    case 0 =>
      if PathsOf(v) == [] {
        RunesId([]);
        PlainEmpty();
      } else {
        PathsBack(PathsOf(v));
      }
    case 1 =>
      SingleMember(PeriodKey, Text(PeriodOf(v)));
      RunesId(PeriodOf(v));
    case 2 =>
      if BoundsOf(v) == [] {
        EmptyObject();
      } else {
        BoundsBack(BoundsOf(v));
      }
    case 3 =>
      PairMembers(LogicOpKey, Text(ChangeOf(v).0), DiffKey, Text(ChangeOf(v).1));
      RunesId(ChangeOf(v).0);
      RunesId(ChangeOf(v).1);
    case 4 =>
      PairMembers(MaxErrKey, Text(CurvelogOf(v).0), BufSizeKey, Text(CurvelogOf(v).1));
      RunesId(CurvelogOf(v).0);
      RunesId(CurvelogOf(v).1);
    case 5 =>
      RunesId(HistoryOf(v));
  }

  lemma PlainEmpty()
    ensures Plain([])
  {
  }

  lemma VariantBack(variant: int)
    requires 0 <= variant <= 5
    ensures VariantOf(VariantName(variant)) == variant && Plain(VariantName(variant))
    ensures Runes(VariantName(variant)) == VariantName(variant)
  {
    hide Plain, Runes;
    assert Chars("paths")[0] != Chars("range")[0];
    LettersPlain("paths");
    LettersPlain("timebased");
    LettersPlain("range");
    LettersPlain("change");
    LettersPlain("curvelog");
    LettersPlain("history");
  }

  lemma {:induction false} FilterBack(f: Filter)
    requires CleanFilter(f)
    ensures var d := FilterDoc(f);
            Printable(d) && TermOf(d).Obj? && ReadFilter(TermOf(d).members) == CanonFilter(f)
  {
    hide Pair, Runes, Member, ParameterDoc, ReadParameter, CanonFilter, VariantName, VariantOf, CleanFilter;
    CanonVariant(f);
    VariantBack(f.variant);
    ParameterBack(f);
    PairMembers(VariantKey, Text(VariantName(f.variant)), ParameterKey, ParameterDoc(f));
  }

  lemma CanonVariant(f: Filter)
    ensures CanonFilter(f).variant == f.variant && (CleanFilter(f) ==> 0 <= f.variant <= 5)
  {
  }

  lemma {:induction false} FiltersBack(fs: seq<Filter>)
    requires fs != [] && forall f :: f in fs ==> CleanFilter(f)
    ensures var d := OneOrMany(FilterDocs(fs));
            Printable(d) && ReadFilters(Some(TermOf(d))) == CanonFilters(Some(fs))
  {
    hide FilterDoc, ReadFilter, CanonFilter, CleanFilter;
    var docs := FilterDocs(fs);
    forall i | 0 <= i < |fs|
      ensures Printable(docs[i]) && TermOf(docs[i]).Obj? && ReadFilter(TermOf(docs[i]).members) == CanonFilter(fs[i])
    {
      FilterBack(fs[i]);
    }
  }

  // ----- the message -----

  lemma {:induction false} FieldsMember(m: Message, order: seq<Key>, k: Key)
    requires forall i, j :: 0 <= i < j < |order| ==> order[i] != order[j]
    ensures var d := Field(m, k);
            Member(TermsOf(Fields(m, order)), k) == if k in order && d.Some? then Some(TermOf(d.value)) else None
  {
    hide Field, Name, TermOf, Member;
    MemberNone(k);
    if order != [] {
      var d := Field(m, order[0]);
      var rest := Fields(m, order[1..]);
      FieldsMember(m, order[1..], k);
      if d.Some? {
        var all := [(Name(order[0]), d.value)] + rest;
        assert all[1..] == rest;
        assert TermsOf(all) == [(Name(order[0]), TermOf(d.value))] + TermsOf(rest);
        MemberCons(order[0], TermOf(d.value), TermsOf(rest), k);
      } else {
        assert [] + rest == rest;
      }
      assert k in order <==> k == order[0] || k in order[1..];
    }
  }

  lemma {:induction false} FieldsPrintable(m: Message, order: seq<Key>)
    requires forall k :: k in order && Field(m, k).Some? ==> Printable(Field(m, k).value)
    ensures forall f :: f in Fields(m, order) ==> Plain(f.0) && Printable(f.1)
  {
    hide Field, Name, Plain, Printable;
    if order != [] {
      NamePlain(order[0]);
      assert order[0] in order;
      FieldsPrintable(m, order[1..]);
    }
  }

  lemma OrderDistinct(m: Message)
    ensures forall i, j :: 0 <= i < j < |Order(m)| ==> Order(m)[i] != Order(m)[j]
    ensures forall k :: Field(m, k).Some? ==> k in Order(m)
  {
    hide FiltersDoc, DataDoc, ErrorDoc, NonEmpty, ActionName;
  }

  lemma {:induction false} FieldPrintable(m: Message, k: Key)
    requires Clean(m) && Field(m, k).Some?
    ensures Printable(Field(m, k).value)
  {
    hide Plain, OneOrMany, PackageDocs, FilterDocs, ErrorDoc, ActionName;
    match k
    case ActionKey => ActionPlain(m);
    case ErrorKey => ErrorBack(ErrorOf(m).value);
    case DataKey => PackagesBack(m.answer.packages);
    case FilterKey => FiltersBack(m.filters.value);
    case _ =>
  }

  lemma ActionPlain(m: Message)
    ensures Plain(ActionName(m)) && Runes(ActionName(m)) == ActionName(m)
  {
    hide Plain, Chars, Runes;
    LettersPlain("get");
    LettersPlain("set");
    LettersPlain("subscribe");
    LettersPlain("subscription");
    LettersPlain("unsubscribe");
  }

  ghost predicate Prints(ms: Members, m: Message) {
    forall k :: Member(ms, k) == if Field(m, k).Some? then Some(TermOf(Field(m, k).value)) else None
  }

  /** Printing is read as an object that holds exactly the printed members. */
  lemma {:induction false} PrintedMembers(m: Message) returns (ms: Members)
    requires Clean(m)
    ensures ReadValue(Print(m)) == Some((Obj(ms), []))
    ensures Prints(ms, m)
  {
    hide Field, Order, Fields, Clean, Name, Plain, ReadValue, Put, TermOf, TermsOf, Member;
    OrderDistinct(m);
    forall k | k in Order(m) && Field(m, k).Some?
      ensures Printable(Field(m, k).value)
    {
      FieldPrintable(m, k);
    }
    var fields := Fields(m, Order(m));
    FieldsPrintable(m, Order(m));
    ReadPut(Record(fields), []);
    ms := TermsOf(fields);
    RecordTerm(fields);
    forall k
      ensures Member(ms, k) == if Field(m, k).Some? then Some(TermOf(Field(m, k).value)) else None
    {
      FieldsMember(m, Order(m), k);
    }
  }

  lemma RecordTerm(fields: seq<(text, Doc)>)
    ensures TermOf(Record(fields)) == Obj(TermsOf(fields))
  {
  }

  lemma {:induction false} OptionalBack(s: Option<str>, t: Option<Term>)
    requires t == if NonEmpty(OrEmpty(s)).Some? then Some(TermOf(NonEmpty(OrEmpty(s)).value)) else None
    ensures AsString(t) == CanonString(s) && OrEmpty(AsString(t)) == OrEmpty(s)
  {
    RunesId(OrEmpty(s));
  }

  /** What is read of each member of a printed message. */
  lemma {:induction false} StringsBack(m: Message, ms: Members)
    requires Prints(ms, m)
    ensures StringAt(ms, ActionKey) == Some(ActionName(m))
    ensures Field(m, PathKey).Some? ==> StringOrEmpty(ms, PathKey) == m.path && !IsNil(Member(ms, PathKey))
    ensures Field(m, PathKey).None? ==> IsNil(Member(ms, PathKey))
    ensures Field(m, TsKey).Some? ==> StringOrEmpty(ms, TsKey) == m.ts && !IsNil(Member(ms, TsKey))
    ensures Field(m, TsKey).None? ==> IsNil(Member(ms, TsKey))
    ensures m.SetRequest? ==> StringOrEmpty(ms, ValueKey) == m.value
    ensures !m.SubscribeEvent? ==> StringOrEmpty(ms, RequestIdKey) == m.requestId
  {
    hide Runes, ActionName, FiltersDoc, DataDoc, ErrorDoc;
    ActionPlain(m);
    if Field(m, PathKey).Some? {
      RunesId(m.path);
    }
    if Field(m, TsKey).Some? {
      RunesId(m.ts);
    }
    if m.SetRequest? {
      RunesId(m.value);
    }
    if !m.SubscribeEvent? {
      OptionalBack(Some(m.requestId), Member(ms, RequestIdKey));
    }
  }

  lemma {:induction false} OptionalsBack(m: Message, ms: Members)
    requires Prints(ms, m)
    ensures !m.SubscribeEvent? && !m.UnsubscribeRequest? && !m.UnsubscribeResponse?
            ==> StringAt(ms, AuthorizationKey) == CanonString(m.authorization)
    ensures m.GetRequest? || m.SubscribeRequest? ==> StringAt(ms, DcKey) == CanonString(m.dc)
    ensures m.SubscribeResponse? ==> StringAt(ms, SubscriptionIdKey) == CanonString(m.given)
    ensures m.SubscribeEvent? || m.UnsubscribeRequest? ==> StringOrEmpty(ms, SubscriptionIdKey) == m.subscriptionId
  {
    hide Runes, ActionName, FiltersDoc, DataDoc, ErrorDoc, AsString, CanonString;
    if !m.SubscribeEvent? && !m.UnsubscribeRequest? && !m.UnsubscribeResponse? {
      OptionalBack(m.authorization, Member(ms, AuthorizationKey));
    }
    if m.GetRequest? || m.SubscribeRequest? {
      OptionalBack(m.dc, Member(ms, DcKey));
    }
    if m.SubscribeResponse? {
      OptionalBack(m.given, Member(ms, SubscriptionIdKey));
    }
    if m.SubscribeEvent? || m.UnsubscribeRequest? {
      OptionalBack(Some(m.subscriptionId), Member(ms, SubscriptionIdKey));
    }
  }

  lemma {:induction false} ErrorFieldBack(m: Message, ms: Members)
    requires Prints(ms, m)
    ensures ReadError(ms) == ErrorOf(m)
  {
    hide ErrorDoc, TermOf, ReadErrorObject, ErrorOf;
    if ErrorOf(m).Some? {
      ErrorBack(ErrorOf(m).value);
    }
  }

  lemma {:induction false} AnswerBack(m: Message, ms: Members)
    requires Prints(ms, m) && (m.GetResponse? || m.SubscribeEvent?)
    ensures ReadAnswer(ms, m.GetResponse?) == CanonAnswer(m.answer, m.GetResponse?)
  {
    hide ErrorDoc, TermOf, ReadError, OneOrMany, PackageDocs, ReadPackages, ElementCount;
    ErrorFieldBack(m, ms);
    NothingThere();
    if m.answer.Data? && m.answer.packages != [] {
      PackagesBack(m.answer.packages);
    }
  }

  lemma NothingThere()
    ensures ElementCount(None) == 0 && ReadPackages([]) == []
  {
  }

  lemma {:induction false} FiltersFieldBack(m: Message, ms: Members)
    requires Clean(m) && Prints(ms, m) && (m.GetRequest? || m.SubscribeRequest?)
    ensures ReadFilters(Member(ms, FilterKey)) == CanonFilters(m.filters)
  {
    hide TermOf, OneOrMany, FilterDocs, CleanFilter, Plain, CanonFilter;
    if FiltersDoc(m.filters).Some? {
      FiltersBack(m.filters.value);
    }
  }

  lemma {:induction false} ActionsDiffer()
    ensures Chars("get")[0] != Chars("set")[0]
    ensures |Chars("get")| == |Chars("set")| == 3 && |Chars("subscribe")| == 9
    ensures |Chars("unsubscribe")| == 11 && |Chars("subscription")| == 12
  {
  }

  lemma {:induction false} RequestBack(m: Message, ms: Members)
    requires Clean(m) && Prints(ms, m) && (m.GetRequest? || m.SetRequest? || m.SubscribeRequest? || m.UnsubscribeRequest?)
    ensures FromMembers(ms) == Parsed(Canon(m))
  {
    ActionsDiffer();
    StringsBack(m, ms);
    OptionalsBack(m, ms);
    if m.GetRequest? || m.SubscribeRequest? {
      FiltersFieldBack(m, ms);
    }
    hide Clean, Prints, Chars, StringAt, StringOrEmpty, ReadError, ReadAnswer, ReadFilters, CanonFilters, CanonString,
      IsNil, Member, FiltersDoc, NonEmpty, TermOf;
  }

  lemma {:induction false} ResponseBack(m: Message, ms: Members)
    requires Clean(m) && Prints(ms, m) && !(m.GetRequest? || m.SetRequest? || m.SubscribeRequest? || m.UnsubscribeRequest?)
    ensures FromMembers(ms) == Parsed(Canon(m))
  {
    ActionsDiffer();
    StringsBack(m, ms);
    OptionalsBack(m, ms);
    ErrorFieldBack(m, ms);
    if m.GetResponse? || m.SubscribeEvent? {
      AnswerBack(m, ms);
    }
    hide Clean, Prints, Chars, StringAt, StringOrEmpty, ReadError, ReadAnswer, ReadFilters, CanonString, CanonAnswer,
      IsNil, Member, FiltersDoc, DataDoc, ErrorDoc, NonEmpty, TermOf;
  }

  /** Method and kind of message are recovered, and every member in its normal form. */
  lemma {:induction false} MembersBack(m: Message, ms: Members)
    requires Clean(m) && Prints(ms, m)
    ensures FromMembers(ms) == Parsed(Canon(m))
  {
    hide Clean, Prints, FromMembers, Canon;
    if m.GetRequest? || m.SetRequest? || m.SubscribeRequest? || m.UnsubscribeRequest? {
      RequestBack(m, ms);
    } else {
      ResponseBack(m, ms);
    }
  }

  /** A message that goes through JSON comes out in normal form, whatever it was. */
  lemma {:induction false} ThroughJson(m: Message)
    requires Clean(m)
    ensures Parse(Print(m)) == Parsed(Canon(m))
  {
    hide Clean, ReadValue, Print, FromMembers, Canon, Prints;
    var ms := PrintedMembers(m);
    MembersBack(m, ms);
  }

  lemma {:induction false} CanonFilterIff(f: Filter)
    requires 0 <= f.variant <= 5
    ensures CanonFilter(f) == f <==> NormalFilter(f)
  {
  }

  lemma {:induction false} CanonFiltersIff(fs: Option<seq<Filter>>)
    requires fs.Some? ==> forall f :: f in fs.value ==> 0 <= f.variant <= 5
    ensures CanonFilters(fs) == fs <==> NormalFilters(fs)
  {
    hide CanonFilter, NormalFilter;
    if fs.Some? {
      forall f | f in fs.value
        ensures CanonFilter(f) == f <==> NormalFilter(f)
      {
        CanonFilterIff(f);
      }
      if |fs.value| == 1 {
        assert fs.value == [fs.value[0]];
      } else if |fs.value| == 2 {
        assert fs.value == [fs.value[0], fs.value[1]];
      }
    }
  }

  lemma {:induction false} CanonAnswerIff(a: Answer, withMetadata: bool)
    ensures CanonAnswer(a, withMetadata) == a <==> NormalAnswer(a, withMetadata)
  {
    if a.Data? {
      var ps := a.packages;
      if CanonPackages(ps) == ps {
        forall p | p in ps
          ensures p.points != []
        {
          var i :| 0 <= i < |ps| && ps[i] == p;
          assert CanonPackages(ps)[i] == ps[i];
        }
      }
    }
  }

  /** Protobuf to JSON and back is the identity exactly on the messages in normal form. */
  lemma {:induction false} IdentityIff(m: Message)
    requires Clean(m)
    ensures Parse(Print(m)) == Parsed(m) <==> Normal(m)
  {
    hide Parse, Print, CanonFilters, NormalFilters, CanonAnswer, NormalAnswer, Plain, CleanFilter;
    ThroughJson(m);
    if m.GetRequest? || m.SubscribeRequest? {
      CleanVariants(m.filters);
      CanonFiltersIff(m.filters);
    }
    if m.GetResponse? || m.SubscribeEvent? {
      CanonAnswerIff(m.answer, m.GetResponse?);
    }
  }

  lemma CleanVariants(fs: Option<seq<Filter>>)
    requires CleanFilters(fs)
    ensures fs.Some? ==> forall f :: f in fs.value ==> 0 <= f.variant <= 5
  {
  }

  lemma {:induction false} CanonClean(m: Message)
    requires Clean(m)
    ensures Clean(Canon(m)) && Normal(Canon(m))
  {
    PlainEmpty();
    if m.GetRequest? || m.SubscribeRequest? {
      CanonFiltersClean(m.filters);
    }
    if m.GetResponse? || m.SubscribeEvent? {
      CanonAnswerNormal(m.answer, m.GetResponse?);
    }
    hide Plain, CleanFilters, NormalFilters, CanonFilters, CanonAnswer, NormalAnswer;
  }

  lemma {:induction false} CanonFiltersClean(fs: Option<seq<Filter>>)
    requires CleanFilters(fs)
    ensures CleanFilters(CanonFilters(fs)) && NormalFilters(CanonFilters(fs))
  {
    hide Plain;
    PlainEmpty();
    if fs.Some? {
      forall f | f in fs.value
        ensures CleanFilter(CanonFilter(f)) && NormalFilter(CanonFilter(f))
      {
        assert CleanFilter(f);
      }
      hide CanonFilter, CleanFilter, NormalFilter;
    }
  }

  lemma {:induction false} CanonAnswerNormal(a: Answer, withMetadata: bool)
    ensures NormalAnswer(CanonAnswer(a, withMetadata), withMetadata)
  {
  }

  /** One pass is enough: a second one changes nothing. */
  lemma {:induction false} SecondPass(m: Message)
    requires Clean(m)
    ensures Parse(Print(Canon(m))) == Parsed(Canon(m))
  {
    hide Parse, Print, Clean, Normal, Canon;
    CanonClean(m);
    IdentityIff(Canon(m));
  }
}
