/**
 * The REST endpoints of the catalog service. Nested collections are built
 * by extending the endpoint of their parent with the parent's code.
 */
module Urls {

  // Catalog

  function FamiliesUrl(): string { "/api/rest/v1/families" }

  function FamilyVariantsUrl(familyCode: string): string
  {
    FamiliesUrl() + "/" + familyCode + "/variants"
  }

  function AttributesUrl(): string { "/api/rest/v1/attributes" }

  function AttributeOptionsUrl(attributeCode: string): string
  {
    AttributesUrl() + "/" + attributeCode + "/options"
  }

  function AttributeGroupsUrl(): string { "/api/rest/v1/attribute-groups" }

  function AssociationTypesUrl(): string { "/api/rest/v1/association-types" }

  function CategoriesUrl(): string { "/api/rest/v1/categories" }

  // Products

  function ProductsUrl(): string { "/api/rest/v1/products" }

  function ProductModelsUrl(): string { "/api/rest/v1/product-models" }

  // Target market

  function ChannelsUrl(): string { "/api/rest/v1/channels" }

  function LocalesUrl(): string { "/api/rest/v1/locales" }

  function CurrenciesUrl(): string { "/api/rest/v1/currencies" }

  function MeasureFamiliesUrl(): string { "/api/rest/v1/measure-families" }

  // Reference entities: each endpoint is written out in full, not built from its parent

  function ReferenceEntitiesUrl(): string { "/api/rest/v1/reference-entities" }

  function ReferenceEntityAttributesUrl(referenceEntityCode: string): string
  {
    "/api/rest/v1/reference-entities/" + referenceEntityCode + "/attributes"
  }

  function ReferenceEntityAttributeOptionsUrl(referenceEntityCode: string, attributeCode: string): string
  {
    "/api/rest/v1/reference-entities/" + referenceEntityCode + "/attributes/" + attributeCode + "/options"
  }

  /** `prefix + code + suffix` determines `code`. */
  lemma {:induction false} InfixDetermined(prefix: string, a: string, b: string, suffix: string)
    requires prefix + a + suffix == prefix + b + suffix
    ensures a == b
  {
    var u := prefix + a + suffix;
    assert |a| == |b|;
    assert u[|prefix|..|prefix| + |a|] == a;
    assert (prefix + b + suffix)[|prefix|..|prefix| + |b|] == b;
  }

  /**
   * The reference-entity endpoints, although spelled out independently, nest
   * exactly: attributes under their entity, options under their attribute.
   */
  lemma ReferenceEntityUrlsNest(referenceEntityCode: string, attributeCode: string)
    ensures ReferenceEntityAttributesUrl(referenceEntityCode)
         == ReferenceEntitiesUrl() + "/" + referenceEntityCode + "/attributes"
    ensures ReferenceEntityAttributeOptionsUrl(referenceEntityCode, attributeCode)
         == ReferenceEntityAttributesUrl(referenceEntityCode) + "/" + attributeCode + "/options"
  {
  }

  /** Distinct family codes address distinct variant collections. */
  lemma FamilyVariantsUrlInjective(a: string, b: string)
    ensures FamilyVariantsUrl(a) == FamilyVariantsUrl(b) <==> a == b
  {
    if FamilyVariantsUrl(a) == FamilyVariantsUrl(b) {
      InfixDetermined(FamiliesUrl() + "/", a, b, "/variants");
    }
  }

  /** Distinct attribute codes address distinct option collections. */
  lemma AttributeOptionsUrlInjective(a: string, b: string)
    ensures AttributeOptionsUrl(a) == AttributeOptionsUrl(b) <==> a == b
  {
    if AttributeOptionsUrl(a) == AttributeOptionsUrl(b) {
      InfixDetermined(AttributesUrl() + "/", a, b, "/options");
    }
  }

  /** Distinct reference-entity codes address distinct attribute collections. */
  lemma ReferenceEntityAttributesUrlInjective(a: string, b: string)
    ensures ReferenceEntityAttributesUrl(a) == ReferenceEntityAttributesUrl(b) <==> a == b
  {
    if ReferenceEntityAttributesUrl(a) == ReferenceEntityAttributesUrl(b) {
      InfixDetermined("/api/rest/v1/reference-entities/", a, b, "/attributes");
    }
  }

  /** A variant collection and an option collection never share an endpoint. */
  lemma NestedCollectionsDisjoint(familyCode: string, attributeCode: string)
    ensures FamilyVariantsUrl(familyCode) != AttributeOptionsUrl(attributeCode)
  {
    assert FamilyVariantsUrl(familyCode)[13] == 'f';
    assert AttributeOptionsUrl(attributeCode)[13] == 'a';
  }
}
