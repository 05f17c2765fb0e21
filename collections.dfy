/**
 * The table of root (unparameterised) resource collections: the endpoint
 * each is listed from and patched to, and the mirror file that holds it.
 */
module Collections {
  import opened Urls
  import opened MirrorStore

  datatype Collection =
    | AssociationTypes | Attributes | AttributeGroups | Categories | Channels | Currencies
    | Families | Locales | MeasureFamilies | Products | ProductModels | ReferenceEntities

  function Url(c: Collection): string
  {
    match c
    case AssociationTypes => AssociationTypesUrl()
    case Attributes => AttributesUrl()
    case AttributeGroups => AttributeGroupsUrl()
    case Categories => CategoriesUrl()
    case Channels => ChannelsUrl()
    case Currencies => CurrenciesUrl()
    case Families => FamiliesUrl()
    case Locales => LocalesUrl()
    case MeasureFamilies => MeasureFamiliesUrl()
    case Products => ProductsUrl()
    case ProductModels => ProductModelsUrl()
    case ReferenceEntities => ReferenceEntitiesUrl()
  }

  function FileName(c: Collection): string
  {
    match c
    case AssociationTypes => AssociationTypesFile
    case Attributes => AttributesFile
    case AttributeGroups => AttributeGroupsFile
    case Categories => CategoriesFile
    case Channels => ChannelsFile
    case Currencies => CurrenciesFile
    case Families => FamiliesFile
    case Locales => LocalesFile
    case MeasureFamilies => MeasureFamiliesFile
    case Products => ProductsFile
    case ProductModels => ProductModelsFile
    case ReferenceEntities => ReferenceEntitiesFile
  }

  /** The collections whose export is a plain fetch-and-write, without dependents. */
  predicate HasFlatExport(c: Collection)
  {
    !(c.Attributes? || c.Families? || c.ReferenceEntities?)
  }

  /** The collections whose import is one `patch` of the whole file. */
  predicate HasFlatImport(c: Collection)
  {
    c.AssociationTypes? || c.Attributes? || c.AttributeGroups? || c.Categories? || c.Channels? || c.Families?
  }

  /** The files written by the cascades, which belong to no root collection. */
  predicate IsDerivedFile(name: string)
  {
    name == AttributeOptionsFile || name == FamilyVariantsFile
    || name == ReferenceEntityAttributesFile || name == ReferenceEntityAttributeOptionsFile
  }

  /** No root collection's mirror file is one that a cascade appends to. */
  lemma RootFilesNotDerived(c: Collection)
    ensures !IsDerivedFile(FileName(c))
  {
  }
}
