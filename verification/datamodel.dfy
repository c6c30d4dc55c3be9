/** The SPA data model: the JSON object a SPA `GetData` response carries.
    Its fields, the two ways it is constructed, and the member list the
    serializer emits for it (which fields, in which order, which omitted). */
module DataModels {
  import opened Wrappers

  /** The parts of the data model a request may ask for. */
  datatype SpaApiPart = Site | Navigation | Content

  /** `SpaEnvironment.ContentGuid`, an opaque token. */
  type Guid = string

  /** A published content node, reduced to the identifier the model reads. */
  datatype PublishedNode = PublishedNode(id: int)

  /** The site, navigation and content payloads, opaque to this model. */
  datatype SiteModel = SiteModel(key: int)
  datatype NavigationModel = NavigationModel(key: int)
  datatype ContentModel = ContentModel(key: int)

  datatype SpaDataModel = SpaDataModel(
    pageId: int,
    siteId: int,
    contentGuid: Guid,
    executeTimeMs: int,
    isCached: bool,
    site: Option<SiteModel>,
    navigation: Option<NavigationModel>,
    content: Option<ContentModel>)

  /** The parameterless constructor: ids keep the `int` default, and the
      execution time is the "not measured" marker -1. */
  function NewDataModel(guid: Guid): (m: SpaDataModel)
    ensures m.executeTimeMs == -1
    ensures m.contentGuid == guid
    ensures !m.isCached && m.site.None? && m.navigation.None? && m.content.None?
  {
    SpaDataModel(0, 0, guid, -1, false, None, None, None)
  }

  /** The request-based constructor, given the request's content and site
      nodes, its requested parts and its already built site and content
      models. */
  function DataModelFor(
    content: Option<PublishedNode>, site: Option<PublishedNode>,
    parts: set<SpaApiPart>, siteModel: Option<SiteModel>,
    contentModel: Option<ContentModel>, guid: Guid): (m: SpaDataModel)
    ensures m.executeTimeMs == -1 && !m.isCached && m.contentGuid == guid
    ensures m.pageId == (if content.Some? then content.value.id else -1)
    ensures m.siteId == (if site.Some? then site.value.id else -1)
    ensures m.site.Some? ==> Site in parts && m.site == siteModel
    ensures Site in parts ==> m.site == siteModel
    ensures m.content.Some? ==> Content in parts && m.content == contentModel
    ensures Content in parts ==> m.content == contentModel
    ensures m.navigation.None?
  {
    var pageId := match content case Some(n) => n.id case None => -1;
    var siteId := match site case Some(n) => n.id case None => -1;
    var m := SpaDataModel(pageId, siteId, guid, -1, false, None, None, None);
    var m := if Site in parts then m.(site := siteModel) else m;
    if Content in parts then m.(content := contentModel) else m
  }

  // ---------------------------------------------------------------------
  // Serialized form
  // ---------------------------------------------------------------------

  /** The members a data model may serialize. */
  datatype Field = PageId | SiteId | ContentGuid | ExecuteTimeMs | Cached
                 | SiteSection | NavigationSection | ContentSection

  /** The JSON name each member is declared with. */
  function Name(f: Field): string {
    match f
    case PageId => "pageId"
    case SiteId => "siteId"
    case ContentGuid => "contentGuid"
    case ExecuteTimeMs => "executeTimeMs"
    case Cached => "cached"
    case SiteSection => "site"
    case NavigationSection => "navigation"
    case ContentSection => "content"
  }

  /** The `Order` each member is declared with; members declared without one
      sort as -1, after every explicit order used here. */
  function JsonOrder(f: Field): int {
    match f
    case PageId => -99
    case SiteId => -98
    case ContentGuid => -97
    case ExecuteTimeMs => -96
    case Cached => -95
    case _ => -1
  }

  datatype JsonValue =
    | JNumber(n: int)
    | JBool(b: bool)
    | JString(s: string)
    | JSite(site: SiteModel)
    | JNavigation(navigation: NavigationModel)
    | JContent(content: ContentModel)

  datatype JsonMember = JsonMember(field: Field, value: JsonValue)

  function Keys(members: seq<JsonMember>): (keys: seq<Field>)
    ensures |keys| == |members|
    ensures forall i :: 0 <= i < |members| ==> keys[i] == members[i].field
  {
    if |members| == 0 then [] else [members[0].field] + Keys(members[1..])
  }

  /** The value of the first member for `f`, if any. */
  function Lookup(members: seq<JsonMember>, f: Field): Option<JsonValue>
  {
    if |members| == 0 then None
    else if members[0].field == f then Some(members[0].value)
    else Lookup(members[1..], f)
  }

  /** The members in declaration order, which is also serializer order. */
  const AllFields: seq<Field> := [PageId, SiteId, ContentGuid, ExecuteTimeMs, Cached,
                                  SiteSection, NavigationSection, ContentSection]

  /** Whether the serializer writes `f` for `m`: `cached` is left out at its
      default (false) and the three sections are left out when null. */
  predicate Written(m: SpaDataModel, f: Field) {
    match f
    case Cached => m.isCached
    case SiteSection => m.site.Some?
    case NavigationSection => m.navigation.Some?
    case ContentSection => m.content.Some?
    case _ => true
  }

  function ValueOf(m: SpaDataModel, f: Field): JsonValue
    requires Written(m, f)
  {
    match f
    case PageId => JNumber(m.pageId)
    case SiteId => JNumber(m.siteId)
    case ContentGuid => JString(m.contentGuid)
    case ExecuteTimeMs => JNumber(m.executeTimeMs)
    case Cached => JBool(m.isCached)
    case SiteSection => JSite(m.site.value)
    case NavigationSection => JNavigation(m.navigation.value)
    case ContentSection => JContent(m.content.value)
  }

  /** The members written for `m` out of the candidates `fields`, in order. */
  function Emit(m: SpaDataModel, fields: seq<Field>): seq<JsonMember>
  {
    if |fields| == 0 then []
    else
      (if Written(m, fields[0]) then [JsonMember(fields[0], ValueOf(m, fields[0]))] else [])
      + Emit(m, fields[1..])
  }

  /** The members a data model serializes to. */
  function ToJson(m: SpaDataModel): seq<JsonMember>
  {
    Emit(m, AllFields)
  }

  /** Reading a data model back from its members: an absent `cached` reads
      as false and an absent section as null. */
  function FromJson(members: seq<JsonMember>): Option<SpaDataModel>
  {
    match (Lookup(members, PageId), Lookup(members, SiteId),
           Lookup(members, ContentGuid), Lookup(members, ExecuteTimeMs))
    case (Some(JNumber(p)), Some(JNumber(s)), Some(JString(g)), Some(JNumber(t))) =>
      var cached := match Lookup(members, Cached) case Some(JBool(b)) => b case _ => false;
      var site := match Lookup(members, SiteSection) case Some(JSite(v)) => Some(v) case _ => None;
      var nav := match Lookup(members, NavigationSection) case Some(JNavigation(v)) => Some(v) case _ => None;
      var content := match Lookup(members, ContentSection) case Some(JContent(v)) => Some(v) case _ => None;
      Some(SpaDataModel(p, s, g, t, cached, site, nav, content))
    case _ => None
  }

  /** A member is emitted exactly when it is a candidate and is written. */
  lemma {:induction false} EmitMembership(m: SpaDataModel, fields: seq<Field>, f: Field)
    ensures f in Keys(Emit(m, fields)) <==> f in fields && Written(m, f)
  {
    if |fields| > 0 {
      EmitMembership(m, fields[1..], f);
      EmitKeysStep(m, fields);
      assert f in fields <==> f == fields[0] || f in fields[1..] by {
        assert fields == [fields[0]] + fields[1..];
      }
    }
  }

  /** Looking a member up in the output finds the model's own value. */
  lemma {:induction false} EmitLookup(m: SpaDataModel, fields: seq<Field>, f: Field)
    ensures Lookup(Emit(m, fields), f)
         == if f in fields && Written(m, f) then Some(ValueOf(m, f)) else None
  {
    if |fields| > 0 {
      EmitLookup(m, fields[1..], f);
      assert fields == [fields[0]] + fields[1..];
      assert f in fields <==> f == fields[0] || f in fields[1..];
      var out := Emit(m, fields);
      if Written(m, fields[0]) {
        assert out[0].field == fields[0];
        assert out[1..] == Emit(m, fields[1..]);
      } else {
        assert out == Emit(m, fields[1..]);
      }
    }
  }

  /** `rel` holds from every element to every later one. */
  ghost predicate Pairwise(s: seq<Field>, rel: (Field, Field) -> bool) {
    forall i, j :: 0 <= i < j < |s| ==> rel(s[i], s[j])
  }

  lemma PairwiseTail(s: seq<Field>, rel: (Field, Field) -> bool)
    requires |s| > 0 && Pairwise(s, rel)
    ensures Pairwise(s[1..], rel)
    ensures forall j :: 0 <= j < |s[1..]| ==> rel(s[0], s[1..][j])
  {
    forall i, j | 0 <= i < j < |s[1..]|
      ensures rel(s[1..][i], s[1..][j])
    {
      assert s[1..][i] == s[i + 1] && s[1..][j] == s[j + 1];
    }
  }

  lemma {:induction false} PairwiseCons(x: Field, s: seq<Field>, rel: (Field, Field) -> bool)
    requires forall j :: 0 <= j < |s| ==> rel(x, s[j])
    requires Pairwise(s, rel)
    ensures Pairwise([x] + s, rel)
  {
    var t := [x] + s;
    forall i, j | 0 <= i < j < |t|
      ensures rel(t[i], t[j])
    {
      assert t[j] == s[j - 1];
      if i > 0 {
        assert t[i] == s[i - 1];
      }
    }
  }

  /** The emitted keys are the first candidate when it is written, then the
      keys emitted for the rest. */
  lemma EmitKeysStep(m: SpaDataModel, fields: seq<Field>)
    requires |fields| > 0
    ensures Keys(Emit(m, fields))
         == (if Written(m, fields[0]) then [fields[0]] else []) + Keys(Emit(m, fields[1..]))
  {
    var head := if Written(m, fields[0]) then [JsonMember(fields[0], ValueOf(m, fields[0]))] else [];
    assert Emit(m, fields) == head + Emit(m, fields[1..]);
    KeysAppend(head, Emit(m, fields[1..]));
  }

  lemma {:induction false} KeysAppend(a: seq<JsonMember>, b: seq<JsonMember>)
    ensures Keys(a + b) == Keys(a) + Keys(b)
  {
    var ka := Keys(a);
    var kb := Keys(b);
    var kab := Keys(a + b);
    assert forall i :: 0 <= i < |a| ==> kab[i] == (a + b)[i].field == ka[i];
    assert forall i :: 0 <= i < |b| ==> kab[|a| + i] == (a + b)[|a| + i].field == kb[i];
    assert kab == ka + kb;
  }

  /** A relation the first candidate has to every later candidate it has to
      every later emitted member. */
  lemma HeadRelatesEmitted(m: SpaDataModel, x: Field, fields: seq<Field>, rel: (Field, Field) -> bool)
    requires forall j :: 0 <= j < |fields| ==> rel(x, fields[j])
    ensures forall j :: 0 <= j < |Keys(Emit(m, fields))| ==> rel(x, Keys(Emit(m, fields))[j])
  {
    var keys := Keys(Emit(m, fields));
    forall j | 0 <= j < |keys|
      ensures rel(x, keys[j])
    {
      EmitMembership(m, fields, keys[j]);
    }
  }

  /** Every relation that holds between earlier and later candidates holds
      between earlier and later emitted members. */
  lemma {:induction false} EmitKeepsPairs(m: SpaDataModel, fields: seq<Field>, rel: (Field, Field) -> bool)
    requires Pairwise(fields, rel)
    ensures Pairwise(Keys(Emit(m, fields)), rel)
  {
    if |fields| > 0 {
      var rest := Keys(Emit(m, fields[1..]));
      PairwiseTail(fields, rel);
      EmitKeepsPairs(m, fields[1..], rel);
      EmitKeysStep(m, fields);
      if Written(m, fields[0]) {
        HeadRelatesEmitted(m, fields[0], fields[1..], rel);
        PairwiseCons(fields[0], rest, rel);
      }
    }
  }

  /** The four scalar members always lead, in declaration order. */
  lemma ToJsonStartsWithScalars(m: SpaDataModel)
    ensures ToJson(m) == [JsonMember(PageId, JNumber(m.pageId)),
      JsonMember(SiteId, JNumber(m.siteId)),
      JsonMember(ContentGuid, JString(m.contentGuid)),
      JsonMember(ExecuteTimeMs, JNumber(m.executeTimeMs))] + Emit(m, AllFields[4..])
  {
    var tail := Emit(m, AllFields[4..]);
    assert AllFields[3..][1..] == AllFields[4..];
    assert Emit(m, AllFields[3..]) == [JsonMember(ExecuteTimeMs, JNumber(m.executeTimeMs))] + tail;
    assert AllFields[2..][1..] == AllFields[3..];
    assert Emit(m, AllFields[2..]) == [JsonMember(ContentGuid, JString(m.contentGuid))] + Emit(m, AllFields[3..]);
    assert AllFields[1..][1..] == AllFields[2..];
    assert Emit(m, AllFields[1..]) == [JsonMember(SiteId, JNumber(m.siteId))] + Emit(m, AllFields[2..]);
    assert Emit(m, AllFields) == [JsonMember(PageId, JNumber(m.pageId)),
      JsonMember(SiteId, JNumber(m.siteId)),
      JsonMember(ContentGuid, JString(m.contentGuid)),
      JsonMember(ExecuteTimeMs, JNumber(m.executeTimeMs))] + tail;
  }


  /** The members come out in serializer order, and no member twice. */
  lemma ToJsonOrdered(m: SpaDataModel)
    ensures var keys := Keys(ToJson(m));
      && (forall i, j :: 0 <= i < j < |keys| ==> JsonOrder(keys[i]) <= JsonOrder(keys[j]))
      && (forall i, j :: 0 <= i < j < |keys| ==> keys[i] != keys[j])
  {
    var order := (f: Field, g: Field) => JsonOrder(f) <= JsonOrder(g);
    var distinct := (f: Field, g: Field) => f != g;
    forall i, j | 0 <= i < j < |AllFields|
      ensures order(AllFields[i], AllFields[j]) && distinct(AllFields[i], AllFields[j])
    {
      assert JsonOrder(AllFields[i]) == [-99, -98, -97, -96, -95, -1, -1, -1][i];
    }
    EmitKeepsPairs(m, AllFields, order);
    EmitKeepsPairs(m, AllFields, distinct);
    var keys := Keys(Emit(m, AllFields));
    assert forall i, j :: 0 <= i < j < |keys| ==> order(keys[i], keys[j]);
    assert forall i, j :: 0 <= i < j < |keys| ==> distinct(keys[i], keys[j]);
  }

  /** The four scalar members are always present and lead; every other
      member is present exactly when the model's field is set (a true flag,
      a non-null section). */
  lemma ToJsonPresence(m: SpaDataModel)
    ensures var keys := Keys(ToJson(m));
      && |keys| >= 4 && keys[..4] == [PageId, SiteId, ContentGuid, ExecuteTimeMs]
      && (Cached in keys <==> m.isCached)
      && (SiteSection in keys <==> m.site.Some?)
      && (NavigationSection in keys <==> m.navigation.Some?)
      && (ContentSection in keys <==> m.content.Some?)
  {
    ToJsonScalarKeys(m);
    KeyInToJson(m, Cached);
    KeyInToJson(m, SiteSection);
    KeyInToJson(m, NavigationSection);
    KeyInToJson(m, ContentSection);
  }

  /** Members holding a model's values, each where `EmitLookup` puts it,
      read back as that model. */
  lemma ReadBack(js: seq<JsonMember>, m: SpaDataModel)
    requires Lookup(js, PageId) == Some(JNumber(m.pageId))
    requires Lookup(js, SiteId) == Some(JNumber(m.siteId))
    requires Lookup(js, ContentGuid) == Some(JString(m.contentGuid))
    requires Lookup(js, ExecuteTimeMs) == Some(JNumber(m.executeTimeMs))
    requires Lookup(js, Cached) == if m.isCached then Some(JBool(true)) else None
    requires Lookup(js, SiteSection) == if m.site.Some? then Some(JSite(m.site.value)) else None
    requires Lookup(js, NavigationSection) == if m.navigation.Some? then Some(JNavigation(m.navigation.value)) else None
    requires Lookup(js, ContentSection) == if m.content.Some? then Some(JContent(m.content.value)) else None
    ensures FromJson(js) == Some(m)
  {
  }

  /** Every member is a candidate, so it is in the output exactly when it
      is written, with the model's value. */
  lemma LookupToJson(m: SpaDataModel, f: Field)
    ensures Lookup(ToJson(m), f) == if Written(m, f) then Some(ValueOf(m, f)) else None
  {
    EmitLookup(m, AllFields, f);
    EveryFieldIsCandidate(f);
  }

  lemma EveryFieldIsCandidate(f: Field)
    ensures f in AllFields
  {
    match f
    case PageId => assert AllFields[0] == f;
    case SiteId => assert AllFields[1] == f;
    case ContentGuid => assert AllFields[2] == f;
    case ExecuteTimeMs => assert AllFields[3] == f;
    case Cached => assert AllFields[4] == f;
    case SiteSection => assert AllFields[5] == f;
    case NavigationSection => assert AllFields[6] == f;
    case ContentSection => assert AllFields[7] == f;
  }

  /** A member is in the output exactly when it is written. */
  lemma KeyInToJson(m: SpaDataModel, f: Field)
    ensures f in Keys(ToJson(m)) <==> Written(m, f)
  {
    EmitMembership(m, AllFields, f);
    EveryFieldIsCandidate(f);
  }

  /** The output's first four keys are the scalar members'. */
  lemma ToJsonScalarKeys(m: SpaDataModel)
    ensures var keys := Keys(ToJson(m));
      |keys| >= 4 && keys[..4] == [PageId, SiteId, ContentGuid, ExecuteTimeMs]
  {
    var js := ToJson(m);
    var keys := Keys(js);
    ToJsonStartsWithScalars(m);
    assert js[0].field == PageId && js[1].field == SiteId;
    assert js[2].field == ContentGuid && js[3].field == ExecuteTimeMs;
    assert keys[..4] == [keys[0], keys[1], keys[2], keys[3]];
  }

  /** The serialized members determine the model: reading them back gives
      the same data model. */
  lemma ToJsonRoundTrip(m: SpaDataModel)
    ensures FromJson(ToJson(m)) == Some(m)
  {
    var js := ToJson(m);
    LookupToJson(m, PageId);
    LookupToJson(m, SiteId);
    LookupToJson(m, ContentGuid);
    LookupToJson(m, ExecuteTimeMs);
    LookupToJson(m, Cached);
    LookupToJson(m, SiteSection);
    LookupToJson(m, NavigationSection);
    LookupToJson(m, ContentSection);
    ReadBack(js, m);
  }

  /** A request that asks for the content part only serializes a `content`
      section (when a content model was built) and omits `site` and
      `navigation` altogether. */
  lemma ContentOnlyOmitsOtherSections(
    content: Option<PublishedNode>, site: Option<PublishedNode>,
    siteModel: Option<SiteModel>, contentModel: Option<ContentModel>, guid: Guid)
    ensures var keys := Keys(ToJson(DataModelFor(content, site, {Content}, siteModel, contentModel, guid)));
      && SiteSection !in keys && NavigationSection !in keys && Cached !in keys
      && (ContentSection in keys <==> contentModel.Some?)
  {
    ToJsonPresence(DataModelFor(content, site, {Content}, siteModel, contentModel, guid));
  }
}
