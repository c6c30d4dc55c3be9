/** The contract resolver that decides which members of published content
    are serialized, and in which order. */
module ContractResolver {
  import opened Wrappers

  /** What kind of member is resolved: a property, with the full name of its
      type (null for some generic types), or any other member. */
  datatype MemberKind = Property(typeFullName: Option<string>) | OtherMember

  /** A member: its name, the namespace of its declaring type (null when
      there is none) and its kind. */
  datatype Member = Member(name: string, declaringNamespace: Option<string>, kind: MemberKind)

  /** The namespace whose members are filtered by name. */
  const PublishedContentNamespace: string := "Umbraco.Core.Models.PublishedContent"

  /** The names left out when declared in that namespace, as the switch lists them. */
  const PublishedContentHidden: seq<string> := [
    "CompositionAliases", "ContentSet", "ContentType", "PropertyTypes", "Properties",
    "Parent", "Children", "DocumentTypeId", "WriterName", "CreatorName", "Cultures",
    "ChildrenForAllCultures", "UrlSegment", "WriterId", "CreatorId", "CreateDate",
    "UpdateDate", "Version", "SortOrder", "TemplateId", "IsDraft", "ItemType"]

  /** The names left out wherever they are declared. */
  const AlwaysHidden: seq<string> := ["SeoMetaDescription", "Seodashboard", "Preview", "SeoTitle"]

  /** The property type that is never serialized. */
  const SeparatorType: string := "Skybrud.Separator.SeparatorModel"

  /** `ShouldSerialize`: the checks in the order the resolver makes them. */
  function ShouldSerialize(m: Member): (b: bool)
    ensures !b <==>
      || (m.declaringNamespace == Some(PublishedContentNamespace) && m.name in PublishedContentHidden)
      || m.name in AlwaysHidden
      || m.kind == Property(Some(SeparatorType))
  {
    if m.declaringNamespace == Some(PublishedContentNamespace) && m.name in PublishedContentHidden then false
    else if m.name in AlwaysHidden then false
    else match m.kind
      case Property(typeName) => typeName != Some(SeparatorType)
      case OtherMember => true
  }

  /** Each of the 22 names is left out when its type is in the published
      content namespace. */
  lemma {:induction false} HiddenInPublishedContent(name: string, kind: MemberKind)
    requires name in PublishedContentHidden
    ensures !ShouldSerialize(Member(name, Some(PublishedContentNamespace), kind))
  {
  }

  /** The same names from any other namespace are kept, unless another rule
      applies to them. */
  lemma {:induction false} KeptElsewhere(name: string, ns: Option<string>, kind: MemberKind)
    requires ns != Some(PublishedContentNamespace)
    requires name !in AlwaysHidden && kind != Property(Some(SeparatorType))
    ensures ShouldSerialize(Member(name, ns, kind))
  {
  }

  /** The four SEO and preview names are left out in every namespace. */
  lemma {:induction false} AlwaysHiddenEverywhere(name: string, ns: Option<string>, kind: MemberKind)
    requires name in AlwaysHidden
    ensures !ShouldSerialize(Member(name, ns, kind))
  {
  }

  /** Separator properties are left out, whatever their name or namespace. */
  lemma {:induction false} SeparatorsHidden(name: string, ns: Option<string>)
    ensures !ShouldSerialize(Member(name, ns, Property(Some(SeparatorType))))
  {
  }

  /** A member that is not a property is only filtered by name. */
  lemma {:induction false} OtherMembersByNameOnly(m: Member)
    requires m.kind.OtherMember?
    ensures ShouldSerialize(m) <==> ShouldSerialize(m.(kind := Property(None)))
  {
  }

  /** The order overrides: `Id`, `Key`, `Name`, `Level` and `Url` get -99 to
      -95; any other member keeps the order it had. */
  function OrderFor(name: string, baseOrder: Option<int>): (order: Option<int>)
    ensures name !in OverriddenNames ==> order == baseOrder
    ensures name in OverriddenNames ==> order.Some? && -99 <= order.value <= -95
  {
    if name == "Id" then Some(-99)
    else if name == "Key" then Some(-98)
    else if name == "Name" then Some(-97)
    else if name == "Level" then Some(-96)
    else if name == "Url" then Some(-95)
    else baseOrder
  }

  /** The members whose order is overridden, first to last. */
  const OverriddenNames: seq<string> := ["Id", "Key", "Name", "Level", "Url"]

  /** The order Json.NET sorts by: members without an explicit order count
      as -1. */
  function EffectiveOrder(order: Option<int>): int {
    order.GetOr(-1)
  }

  /** The overridden members come first, in the order Id, Key, Name, Level,
      Url, ahead of every member left at the default order. */
  lemma {:induction false} OverridesOrdered(i: nat, j: nat, base1: Option<int>, base2: Option<int>)
    requires i < j < |OverriddenNames|
    ensures EffectiveOrder(OrderFor(OverriddenNames[i], base1)) < EffectiveOrder(OrderFor(OverriddenNames[j], base2))
    ensures EffectiveOrder(OrderFor(OverriddenNames[j], base2)) < EffectiveOrder(None)
  {
  }

  /** A resolved property: the serialized name, its order and whether it
      is written. */
  datatype JsonProperty = JsonProperty(propertyName: string, order: Option<int>, shouldSerialize: bool)

  /** `CreateProperty`: the base property with the serialization filter
      attached, its name passed through `camel` (the library's lower camel
      casing, given as a parameter) and the order overridden. */
  function CreateProperty(m: Member, base: JsonProperty, camel: string -> string): (p: JsonProperty)
    ensures p.propertyName == camel(base.propertyName)
    ensures p.shouldSerialize == ShouldSerialize(m)
    ensures m.name !in OverriddenNames ==> p.order == base.order
    ensures m.name in OverriddenNames ==> p.order.Some? && p.order.value < -94
  {
    JsonProperty(camel(base.propertyName), OrderFor(m.name, base.order), ShouldSerialize(m))
  }
}
