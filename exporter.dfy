/**
 * The exports as they run: list a collection, write each record as one line,
 * and, in the cascades, run the dependent export of each parent right after
 * the parent's own line. Each method is proved to leave the directory that
 * `Exports.Export` (or the `Append` of a dependent export) describes.
 */
module Exporter {
  import opened Records
  import opened Remote
  import opened MirrorStore
  import opened Collections
  import opened Urls
  import opened Exports

  /**
   * One parent of a cascade: its line added to the root file (`written`),
   * then its dependent's append `a` (`after`), gives the state for the
   * longer prefix of the listing.
   */
  lemma CascadeStep(files: map<string, seq<Record>>, root: string, derived: string, parents: seq<Record>, i: int,
                    c: Append, a: Append, written: map<string, seq<Record>>, after: map<string, seq<Record>>)
    requires root != derived && 0 <= i < |parents|
    requires Sound(c) && Sound(a)
    requires var before := Extend(files[root := parents[..i]], derived, c);
      written == before[root := before[root] + [parents[i]]]
    requires after == Extend(written, derived, a)
    ensures after == Extend(files[root := parents[..i + 1]], derived, Then(c, a))
  {
    var prefix := files[root := parents[..i]];
    ExtendKeeps(prefix, derived, c, root);
    assert parents[..i] + [parents[i]] == parents[..i + 1];
    ExtendUpdate(prefix, derived, c, root, parents[..i + 1]);
    RewriteTwice(files, root, parents[..i], parents[..i + 1]);
    ExtendThen(files[root := parents[..i + 1]], derived, c, a);
  }

  /** `CascadeStep` for a root with two dependent files. */
  lemma CascadeStep2(files: map<string, seq<Record>>, root: string, d1: string, d2: string, parents: seq<Record>, i: int,
                     c1: Append, a1: Append, c2: Append, a2: Append,
                     written: map<string, seq<Record>>, after: map<string, seq<Record>>)
    requires root != d1 && root != d2 && d1 != d2 && 0 <= i < |parents|
    requires Sound(c1) && Sound(a1) && Sound(c2) && Sound(a2)
    requires var before := Extend(Extend(files[root := parents[..i]], d1, c1), d2, c2);
      written == before[root := before[root] + [parents[i]]]
    requires after == Extend(Extend(written, d1, a1), d2, a2)
    ensures after == Extend(Extend(files[root := parents[..i + 1]], d1, Then(c1, a1)), d2, Then(c2, a2))
  {
    var prefix := files[root := parents[..i]];
    RootLineUnderTwo(prefix, d1, c1, d2, c2, root, parents, i, written);
    RewriteTwice(files, root, parents[..i], parents[..i + 1]);
    ExtendTwoThen(files[root := parents[..i + 1]], d1, c1, a1, d2, c2, a2);
  }

  /** One entity of `exportReferenceEntities`: its line, then its attributes and their options. */
  lemma EntityStep(remote: string -> Fetch, files: map<string, seq<Record>>, entities: seq<Record>, i: int,
                   before: map<string, seq<Record>>, written: map<string, seq<Record>>, after: map<string, seq<Record>>)
    requires 0 <= i < |entities|
    requires before == Extend(Extend(files[ReferenceEntitiesFile := entities[..i]],
                                     ReferenceEntityAttributesFile, Collect(remote, EntityToAttributes, entities[..i])),
                              ReferenceEntityAttributeOptionsFile, Collect(remote, EntityToAttributeOptions, entities[..i]))
    requires ReferenceEntitiesFile in before
    requires written == before[ReferenceEntitiesFile := before[ReferenceEntitiesFile] + [entities[i]]]
    requires var code := Get(entities[i], "code");
      after == Extend(Extend(written, ReferenceEntityAttributesFile, EntityAttributesExport(remote, code)),
                      ReferenceEntityAttributeOptionsFile, EntityAttributesOptions(remote, code))
    ensures after == Extend(Extend(files[ReferenceEntitiesFile := entities[..i + 1]],
                                   ReferenceEntityAttributesFile, Collect(remote, EntityToAttributes, entities[..i + 1])),
                            ReferenceEntityAttributeOptionsFile, Collect(remote, EntityToAttributeOptions, entities[..i + 1]))
  {
    CascadeStep2(files, ReferenceEntitiesFile, ReferenceEntityAttributesFile, ReferenceEntityAttributeOptionsFile, entities, i,
                 Collect(remote, EntityToAttributes, entities[..i]), Contribution(remote, EntityToAttributes, entities[i]),
                 Collect(remote, EntityToAttributeOptions, entities[..i]), Contribution(remote, EntityToAttributeOptions, entities[i]),
                 written, after);
    CollectStep(remote, EntityToAttributes, entities, i);
    CollectStep(remote, EntityToAttributeOptions, entities, i);
  }

  /** The root file's line written beneath two appends to dependent files. */
  lemma RootLineUnderTwo(prefix: map<string, seq<Record>>, d1: string, c1: Append, d2: string, c2: Append,
                         root: string, parents: seq<Record>, i: int, written: map<string, seq<Record>>)
    requires root != d1 && root != d2 && 0 <= i < |parents|
    requires root in prefix && prefix[root] == parents[..i]
    requires var before := Extend(Extend(prefix, d1, c1), d2, c2);
      written == before[root := before[root] + [parents[i]]]
    ensures written == Extend(Extend(prefix[root := parents[..i + 1]], d1, c1), d2, c2)
  {
    ExtendKeeps(prefix, d1, c1, root);
    ExtendKeeps(Extend(prefix, d1, c1), d2, c2, root);
    assert parents[..i] + [parents[i]] == parents[..i + 1];
    UpdateUnderTwo(prefix, d1, c1, d2, c2, root, parents[..i + 1]);
  }

  /** One line written to a file being appended to, with a second file's append after it. */
  lemma AppendStep(files: map<string, seq<Record>>, name: string, rs: seq<Record>, r: Record, other: string, a: Append)
    requires name != other
    ensures var before := Extend(Extend(files, name, Append(true, rs)), other, a);
      before[name := before[name] + [r]] == Extend(Extend(files, name, Append(true, rs + [r])), other, a)
  {
    ExtendUpdate(Extend(files, name, Append(true, rs)), other, a, name, ContentOf(files, name) + rs + [r]);
    ExtendWrite(files, name, rs, r);
  }

  /**
   * One attribute of `exportReferenceEntityAttributes`: its line written,
   * then, when it has options, their export.
   */
  lemma EntityAttributeStep(remote: string -> Fetch, files: map<string, seq<Record>>, entityCode: Option<string>,
                            tagged: seq<Record>, i: int, written: map<string, seq<Record>>, after: map<string, seq<Record>>)
    requires 0 <= i < |tagged|
    requires var before := Extend(Extend(files, ReferenceEntityAttributesFile, Append(true, tagged[..i])),
                                  ReferenceEntityAttributeOptionsFile, Collect(remote, AttributeToEntityOptions(entityCode), tagged[..i]));
      written == before[ReferenceEntityAttributesFile := before[ReferenceEntityAttributesFile] + [tagged[i]]]
    requires after == if HasEntityOptions(tagged[i])
                      then Extend(written, ReferenceEntityAttributeOptionsFile, EntityOptionsExport(remote, entityCode, Get(tagged[i], "code")))
                      else written
    ensures after == Extend(Extend(files, ReferenceEntityAttributesFile, Append(true, tagged[..i + 1])),
                            ReferenceEntityAttributeOptionsFile, Collect(remote, AttributeToEntityOptions(entityCode), tagged[..i + 1]))
  {
    var link := AttributeToEntityOptions(entityCode);
    var collected := Collect(remote, link, tagged[..i]);
    AppendStep(files, ReferenceEntityAttributesFile, tagged[..i], tagged[i], ReferenceEntityAttributeOptionsFile, collected);
    assert tagged[..i] + [tagged[i]] == tagged[..i + 1];
    var grown := Extend(files, ReferenceEntityAttributesFile, Append(true, tagged[..i + 1]));
    ExtendThen(grown, ReferenceEntityAttributeOptionsFile, collected, Contribution(remote, link, tagged[i]));
    CollectStep(remote, link, tagged, i);
  }

  /** One more line of a dependent export written to the file it appends to. */
  lemma AppendLine(files: map<string, seq<Record>>, name: string, lines: seq<Record>, i: int,
                   before: map<string, seq<Record>>, after: map<string, seq<Record>>)
    requires 0 <= i < |lines|
    requires before == Extend(files, name, Append(true, lines[..i]))
    requires name in before && after == before[name := before[name] + [lines[i]]]
    ensures after == Extend(files, name, Append(true, lines[..i + 1]))
  {
    ExtendWrite(files, name, lines[..i], lines[i]);
    assert lines[..i] + [lines[i]] == lines[..i + 1];
  }

  /** `exportAssociationTypes`, `exportCategories` and the other exports without dependents. */
  method ExportFlat(store: Mirror, remote: string -> Fetch, c: Collection) returns (outcome: Outcome)
    requires HasFlatExport(c)
    modifies store
    ensures store.files == Export(remote, old(store.files), c)
    ensures outcome == ExportOutcome(remote, c)
  {
    var name := FileName(c);
    assert old(store.files) - DerivedFiles(c) == old(store.files);
    assert remote(Url(c)).Listing? ==> Export(remote, old(store.files), c) == old(store.files)[name := remote(Url(c)).records];
    match remote(Url(c))
    case Rejected(e) =>
      outcome := Returned(e);
    case NotIterable =>
      outcome := Ok;
    case Listing(rs) =>
      WriteLines(store, name, rs);
      outcome := Ok;
  }

  /** The listed records written to their truncated file, one line each. */
  method WriteLines(store: Mirror, name: string, rs: seq<Record>)
    modifies store
    ensures store.files == old(store.files)[name := rs]
  {
    store.OpenTruncate(name);
    for i := 0 to |rs|
      invariant store.files == old(store.files)[name := rs[..i]]
    {
      store.Write(name, rs[i]);
      assert rs[..i + 1] == rs[..i] + [rs[i]];
    }
    assert rs[..|rs|] == rs;
  }

  /** `exportFamilyVariants(familyCode)` */
  method ExportFamilyVariants(store: Mirror, remote: string -> Fetch, familyCode: Option<string>) returns (outcome: Outcome)
    modifies store
    ensures store.files == Extend(old(store.files), FamilyVariantsFile, VariantsExport(remote, familyCode))
    ensures outcome == DependentOutcome(remote(FamilyVariantsUrl(Interpolate(familyCode))), false)
  {
    match remote(FamilyVariantsUrl(Interpolate(familyCode)))
    case Rejected(e) =>
      outcome := Returned(e);
    case NotIterable =>
      outcome := Ok;
    case Listing(variants) =>
      assert DependentOutcome(remote(FamilyVariantsUrl(Interpolate(familyCode))), false) == Ok;
      store.OpenAppend(FamilyVariantsFile);
      ExtendOpened(old(store.files), FamilyVariantsFile);
      ghost var tagged := InjectAll(variants, "family", familyCode);
      assert tagged[..0] == [];
      for i := 0 to |variants|
        invariant store.files == Extend(old(store.files), FamilyVariantsFile, Append(true, tagged[..i]))
      {
        var variant := Inject(variants[i], "family", familyCode);
        InjectAllAt(variants, "family", familyCode, i);
        store.Write(FamilyVariantsFile, variant);
        ExtendWrite(old(store.files), FamilyVariantsFile, tagged[..i], variant);
        assert tagged[..i] + [tagged[i]] == tagged[..i + 1];
      }
      assert tagged[..|variants|] == tagged;
      assert VariantsExport(remote, familyCode) == Append(true, tagged);
      outcome := Ok;
  }

  /** `exportFamilies`: the families, each followed by its variants. */
  method ExportFamilies(store: Mirror, remote: string -> Fetch) returns (outcome: Outcome)
    modifies store
    ensures store.files == Export(remote, old(store.files), Families)
    ensures outcome == ExportOutcome(remote, Families)
  {
    var _ := store.Unlink(FamilyVariantsFile);
    assert store.files == old(store.files) - DerivedFiles(Families);
    match remote(Url(Families))
    case Rejected(e) =>
      outcome := Returned(e);
    case NotIterable =>
      outcome := Ok;
    case Listing(families) =>
      WriteFamilies(store, remote, families);
      outcome := Ok;
  }

  /** The listed families written to their truncated file, each followed by its variants. */
  method WriteFamilies(store: Mirror, remote: string -> Fetch, families: seq<Record>)
    modifies store
    ensures store.files
         == Extend(old(store.files)[FamiliesFile := families], FamilyVariantsFile, Collect(remote, FamilyToVariants, families))
  {
    ghost var base := store.files;
    store.OpenTruncate(FamiliesFile);
    assert families[..0] == [];
    for i := 0 to |families|
      invariant store.files
             == Extend(base[FamiliesFile := families[..i]], FamilyVariantsFile, Collect(remote, FamilyToVariants, families[..i]))
    {
      store.Write(FamiliesFile, families[i]);
      ghost var written := store.files;
      var _ := ExportFamilyVariants(store, remote, Get(families[i], "code"));
      CascadeStep(base, FamiliesFile, FamilyVariantsFile, families, i, Collect(remote, FamilyToVariants, families[..i]),
                  Contribution(remote, FamilyToVariants, families[i]), written, store.files);
      CollectStep(remote, FamilyToVariants, families, i);
    }
    assert families[..|families|] == families;
  }

  /** `exportAttributeOptions(attributeCode)` */
  method ExportAttributeOptions(store: Mirror, remote: string -> Fetch, attributeCode: Option<string>) returns (outcome: Outcome)
    modifies store
    ensures store.files == Extend(old(store.files), AttributeOptionsFile, OptionsExport(remote, attributeCode))
    ensures outcome == DependentOutcome(remote(AttributeOptionsUrl(Interpolate(attributeCode))), false)
  {
    match remote(AttributeOptionsUrl(Interpolate(attributeCode)))
    case Rejected(e) =>
      outcome := Returned(e);
    case NotIterable =>
      outcome := Ok;
    case Listing(options) =>
      assert DependentOutcome(remote(AttributeOptionsUrl(Interpolate(attributeCode))), false) == Ok;
      store.OpenAppend(AttributeOptionsFile);
      ExtendOpened(old(store.files), AttributeOptionsFile);
      assert options[..0] == [];
      for i := 0 to |options|
        invariant store.files == Extend(old(store.files), AttributeOptionsFile, Append(true, options[..i]))
      {
        store.Write(AttributeOptionsFile, options[i]);
        ExtendWrite(old(store.files), AttributeOptionsFile, options[..i], options[i]);
        assert options[..i] + [options[i]] == options[..i + 1];
      }
      assert options[..|options|] == options;
      outcome := Ok;
  }

  /**
   * `exportAttributes`: the attributes, each select attribute followed by its
   * options. The listing itself is not guarded: its failure rejects.
   */
  method ExportAttributes(store: Mirror, remote: string -> Fetch) returns (outcome: Outcome)
    modifies store
    ensures store.files == Export(remote, old(store.files), Attributes)
    ensures outcome == ExportOutcome(remote, Attributes)
  {
    var _ := store.Unlink(AttributeOptionsFile);
    assert store.files == old(store.files) - DerivedFiles(Attributes);
    match remote(Url(Attributes))
    case Rejected(e) =>
      outcome := Thrown(e);
    case NotIterable =>
      outcome := Ok;
    case Listing(attributes) =>
      WriteAttributes(store, remote, attributes);
      outcome := Ok;
  }

  /** The listed attributes written to their truncated file, each select attribute followed by its options. */
  method WriteAttributes(store: Mirror, remote: string -> Fetch, attributes: seq<Record>)
    modifies store
    ensures store.files
         == Extend(old(store.files)[AttributesFile := attributes], AttributeOptionsFile, Collect(remote, AttributeToOptions, attributes))
  {
    ghost var base := store.files;
    store.OpenTruncate(AttributesFile);
    assert attributes[..0] == [];
    for i := 0 to |attributes|
      invariant store.files
             == Extend(base[AttributesFile := attributes[..i]], AttributeOptionsFile, Collect(remote, AttributeToOptions, attributes[..i]))
    {
      store.Write(AttributesFile, attributes[i]);
      ghost var written := store.files;
      if HasOptions(attributes[i]) {
        var _ := ExportAttributeOptions(store, remote, Get(attributes[i], "code"));
      }
      CascadeStep(base, AttributesFile, AttributeOptionsFile, attributes, i, Collect(remote, AttributeToOptions, attributes[..i]),
                  Contribution(remote, AttributeToOptions, attributes[i]), written, store.files);
      CollectStep(remote, AttributeToOptions, attributes, i);
    }
    assert attributes[..|attributes|] == attributes;
  }

  /**
   * `exportReferenceEntityAttributeOptions(entityCode, attributeCode)`. A
   * failed listing with no code or with status 404 is passed over: the
   * listing keeps its initial empty value and the file is still opened.
   */
  method ExportReferenceEntityAttributeOptions(store: Mirror, remote: string -> Fetch,
                                               entityCode: Option<string>, attributeCode: Option<string>)
    returns (outcome: Outcome)
    modifies store
    ensures store.files == Extend(old(store.files), ReferenceEntityAttributeOptionsFile,
                                  EntityOptionsExport(remote, entityCode, attributeCode))
    ensures outcome == DependentOutcome(remote(ReferenceEntityAttributeOptionsUrl(Interpolate(entityCode), Interpolate(attributeCode))), true)
  {
    var name := ReferenceEntityAttributeOptionsFile;
    var options: seq<Record> := [];
    var iterable := true;
    match remote(ReferenceEntityAttributeOptionsUrl(Interpolate(entityCode), Interpolate(attributeCode))) {
      case Rejected(e) =>
        if HasCode(e) && e.code != Status(404) {
          return Returned(e);
        }
      case NotIterable =>
        iterable := false;
      case Listing(rs) =>
        options := rs;
    }
    if iterable {
      AppendOptions(store, options, entityCode, attributeCode);
      assert EntityOptionsExport(remote, entityCode, attributeCode)
          == Append(true, InjectAll(InjectAll(options, "reference_entity_code", entityCode), "attribute_code", attributeCode));
    } else {
      assert EntityOptionsExport(remote, entityCode, attributeCode) == Untouched;
    }
    outcome := Ok;
  }

  /** The options appended to their file, each given the entity and attribute codes it lacks. */
  method AppendOptions(store: Mirror, options: seq<Record>, entityCode: Option<string>, attributeCode: Option<string>)
    modifies store
    ensures store.files
         == Extend(old(store.files), ReferenceEntityAttributeOptionsFile,
                   Append(true, InjectAll(InjectAll(options, "reference_entity_code", entityCode), "attribute_code", attributeCode)))
  {
    var name := ReferenceEntityAttributeOptionsFile;
    store.OpenAppend(name);
    ExtendOpened(old(store.files), name);
    ghost var tagged := InjectAll(InjectAll(options, "reference_entity_code", entityCode), "attribute_code", attributeCode);
    assert tagged[..0] == [];
    for i := 0 to |options|
      invariant store.files == Extend(old(store.files), name, Append(true, tagged[..i]))
    {
      ghost var before := store.files;
      var option := Inject(options[i], "reference_entity_code", entityCode);
      option := Inject(option, "attribute_code", attributeCode);
      InjectTwiceAt(options, "reference_entity_code", entityCode, "attribute_code", attributeCode, i);
      store.Write(name, option);
      AppendLine(old(store.files), name, tagged, i, before, store.files);
    }
    assert tagged[..|options|] == tagged;
  }

  /**
   * `exportReferenceEntityAttributes(entityCode)`: the attributes, each
   * given the entity code it lacks, each option-typed one followed by its
   * options.
   */
  method ExportReferenceEntityAttributes(store: Mirror, remote: string -> Fetch, entityCode: Option<string>)
    returns (outcome: Outcome)
    modifies store
    ensures store.files
         == Extend(Extend(old(store.files), ReferenceEntityAttributesFile, EntityAttributesExport(remote, entityCode)),
                   ReferenceEntityAttributeOptionsFile, EntityAttributesOptions(remote, entityCode))
    ensures outcome == DependentOutcome(remote(ReferenceEntityAttributesUrl(Interpolate(entityCode))), false)
  {
    var name, optionsName := ReferenceEntityAttributesFile, ReferenceEntityAttributeOptionsFile;
    match remote(ReferenceEntityAttributesUrl(Interpolate(entityCode)))
    case Rejected(e) =>
      outcome := Returned(e);
    case NotIterable =>
      outcome := Ok;
    case Listing(attributes) =>
      assert DependentOutcome(remote(ReferenceEntityAttributesUrl(Interpolate(entityCode))), false) == Ok;
      store.OpenAppend(name);
      ExtendOpened(old(store.files), name);
      ghost var link := AttributeToEntityOptions(entityCode);
      ghost var tagged := InjectAll(attributes, "reference_entity_code", entityCode);
      assert tagged[..0] == [];
      for i := 0 to |attributes|
        invariant store.files
               == Extend(Extend(old(store.files), name, Append(true, tagged[..i])), optionsName, Collect(remote, link, tagged[..i]))
      {
        var attribute := Inject(attributes[i], "reference_entity_code", entityCode);
        InjectAllAt(attributes, "reference_entity_code", entityCode, i);
        store.Write(name, attribute);
        ghost var written := store.files;
        if HasEntityOptions(attribute) {
          var _ := ExportReferenceEntityAttributeOptions(store, remote, entityCode, Get(attribute, "code"));
        }
        EntityAttributeStep(remote, old(store.files), entityCode, tagged, i, written, store.files);
      }
      assert tagged[..|attributes|] == tagged;
      assert EntityAttributesExport(remote, entityCode) == Append(true, tagged);
      assert EntityAttributesOptions(remote, entityCode) == Collect(remote, link, tagged);
      outcome := Ok;
  }

  /**
   * `exportReferenceEntities`: both dependent files deleted, then the
   * entities, each followed by its attributes and their options.
   */
  method ExportReferenceEntities(store: Mirror, remote: string -> Fetch) returns (outcome: Outcome)
    modifies store
    ensures store.files == Export(remote, old(store.files), ReferenceEntities)
    ensures outcome == ExportOutcome(remote, ReferenceEntities)
  {
    var _ := store.Unlink(ReferenceEntityAttributesFile);
    var _ := store.Unlink(ReferenceEntityAttributeOptionsFile);
    assert store.files == old(store.files) - DerivedFiles(ReferenceEntities);
    match remote(Url(ReferenceEntities))
    case Rejected(e) =>
      outcome := Returned(e);
    case NotIterable =>
      outcome := Ok;
    case Listing(entities) =>
      WriteEntities(store, remote, entities);
      outcome := Ok;
  }

  /** The listed entities written to their truncated file, each followed by its attributes and their options. */
  method WriteEntities(store: Mirror, remote: string -> Fetch, entities: seq<Record>)
    modifies store
    ensures store.files
         == Extend(Extend(old(store.files)[ReferenceEntitiesFile := entities],
                          ReferenceEntityAttributesFile, Collect(remote, EntityToAttributes, entities)),
                   ReferenceEntityAttributeOptionsFile, Collect(remote, EntityToAttributeOptions, entities))
  {
    ghost var base := store.files;
    store.OpenTruncate(ReferenceEntitiesFile);
    assert entities[..0] == [];
    for i := 0 to |entities|
      invariant store.files
             == Extend(Extend(base[ReferenceEntitiesFile := entities[..i]],
                              ReferenceEntityAttributesFile, Collect(remote, EntityToAttributes, entities[..i])),
                       ReferenceEntityAttributeOptionsFile, Collect(remote, EntityToAttributeOptions, entities[..i]))
    {
      ghost var before := store.files;
      store.Write(ReferenceEntitiesFile, entities[i]);
      ghost var written := store.files;
      var _ := ExportReferenceEntityAttributes(store, remote, Get(entities[i], "code"));
      EntityStep(remote, base, entities, i, before, written, store.files);
    }
    assert entities[..|entities|] == entities;
  }
}
