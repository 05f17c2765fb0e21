/**
 * What a root export leaves in the directory, file by file: its own file
 * holds the listing, each of its dependents' files holds what the
 * dependents appended since the file was deleted, and every other file is
 * as it was. Running the same export twice against the same service leaves
 * the directory as running it once.
 */
module ExportProperties {
  import opened Records
  import opened Remote
  import opened MirrorStore
  import opened Collections
  import opened Urls
  import opened Exports

  /** The link along which the export of `c` appends to its derived file `d`. */
  function LinkTo(c: Collection, d: string): Link
    requires d in DerivedFiles(c)
  {
    if d == FamilyVariantsFile then FamilyToVariants
    else if d == AttributeOptionsFile then AttributeToOptions
    else if d == ReferenceEntityAttributesFile then EntityToAttributes
    else EntityToAttributeOptions
  }

  /** What the export of `c` appends to its derived file `d` after deleting it. */
  function DerivedAppend(remote: string -> Fetch, c: Collection, d: string): (a: Append)
    requires d in DerivedFiles(c)
    ensures Sound(a)
    ensures a.touched ==> remote(Url(c)).Listing?
  {
    match remote(Url(c))
    case Listing(rs) => Collect(remote, LinkTo(c, d), rs)
    case _ => Untouched
  }

  /**
   * After a listing, every file but the dependents' is as the root's write
   * left it: the appends of the cascade touch nothing else.
   */
  lemma ListedKeeps(remote: string -> Fetch, files: map<string, seq<Record>>, c: Collection, name: string)
    requires remote(Url(c)).Listing? && name !in DerivedFiles(c)
    ensures var written := (files - DerivedFiles(c))[FileName(c) := remote(Url(c)).records];
      && (name in Export(remote, files, c) <==> name in written)
      && (name in written ==> Export(remote, files, c)[name] == written[name])
  {
    var rs := remote(Url(c)).records;
    var written := (files - DerivedFiles(c))[FileName(c) := rs];
    if c == Families {
      ExtendKeeps(written, FamilyVariantsFile, Collect(remote, FamilyToVariants, rs), name);
    } else if c == Attributes {
      ExtendKeeps(written, AttributeOptionsFile, Collect(remote, AttributeToOptions, rs), name);
    } else if c == ReferenceEntities {
      var once := Extend(written, ReferenceEntityAttributesFile, Collect(remote, EntityToAttributes, rs));
      ExtendKeeps(written, ReferenceEntityAttributesFile, Collect(remote, EntityToAttributes, rs), name);
      ExtendKeeps(once, ReferenceEntityAttributeOptionsFile, Collect(remote, EntityToAttributeOptions, rs), name);
    } else {
      assert Export(remote, files, c) == written;
    }
  }

  /**
   * The root file is rewritten with the listing when there is one, and left
   * as it was (present or not) when the listing failed or is not iterable.
   */
  lemma ExportRootFile(remote: string -> Fetch, files: map<string, seq<Record>>, c: Collection)
    ensures var after := Export(remote, files, c);
      remote(Url(c)).Listing? ==> FileName(c) in after && after[FileName(c)] == remote(Url(c)).records
    ensures var after := Export(remote, files, c);
      !remote(Url(c)).Listing? ==>
        && (FileName(c) in after <==> FileName(c) in files)
        && (FileName(c) in files ==> after[FileName(c)] == files[FileName(c)])
  {
    RootFilesNotDerived(c);
    if remote(Url(c)).Listing? {
      ListedKeeps(remote, files, c, FileName(c));
    }
  }

  /**
   * A file a cascade appends to exists afterwards exactly when some
   * dependent export of this run touched it, and then holds only what this
   * run appended: whatever an earlier run left there is gone.
   */
  lemma ExportDerivedFile(remote: string -> Fetch, files: map<string, seq<Record>>, c: Collection, d: string)
    requires d in DerivedFiles(c)
    ensures d in Export(remote, files, c) <==> DerivedAppend(remote, c, d).touched
    ensures d in Export(remote, files, c) ==> Export(remote, files, c)[d] == DerivedAppend(remote, c, d).records
  {
    RootFilesNotDerived(c);
    var base := files - DerivedFiles(c);
    assert d !in base;
    if remote(Url(c)).Listing? {
      var rs := remote(Url(c)).records;
      var written := base[FileName(c) := rs];
      assert d !in written;
      if c == ReferenceEntities {
        var a1 := Collect(remote, EntityToAttributes, rs);
        var a2 := Collect(remote, EntityToAttributeOptions, rs);
        if d == ReferenceEntityAttributesFile {
          ExtendKeeps(Extend(written, d, a1), ReferenceEntityAttributeOptionsFile, a2, d);
        } else {
          ExtendKeeps(written, ReferenceEntityAttributesFile, a1, d);
        }
      }
    }
  }

  /** Every file that is neither the root's nor one of its dependents' is left as it was. */
  lemma ExportKeepsOthers(remote: string -> Fetch, files: map<string, seq<Record>>, c: Collection, name: string)
    requires name != FileName(c) && name !in DerivedFiles(c)
    ensures name in Export(remote, files, c) <==> name in files
    ensures name in files ==> Export(remote, files, c)[name] == files[name]
  {
    if remote(Url(c)).Listing? {
      ListedKeeps(remote, files, c, name);
    }
  }

  /** Exporting twice against the same service leaves the directory as exporting once. */
  lemma ExportIdempotent(remote: string -> Fetch, files: map<string, seq<Record>>, c: Collection)
    ensures Export(remote, Export(remote, files, c), c) == Export(remote, files, c)
  {
    var once := Export(remote, files, c);
    var twice := Export(remote, once, c);
    forall name
      ensures name in twice <==> name in once
      ensures name in once ==> twice[name] == once[name]
    {
      if name == FileName(c) {
        ExportRootFile(remote, files, c);
        ExportRootFile(remote, once, c);
      } else if name in DerivedFiles(c) {
        ExportDerivedFile(remote, files, c, name);
        ExportDerivedFile(remote, once, c, name);
      } else {
        ExportKeepsOthers(remote, once, c, name);
      }
    }
    assert twice.Keys == once.Keys;
  }

  /**
   * After the families export, the variants file exists exactly when the
   * families were listed and the variant listing of at least one of them was
   * iterable.
   */
  lemma VariantsFileExists(remote: string -> Fetch, files: map<string, seq<Record>>)
    ensures FamilyVariantsFile in Export(remote, files, Families)
        <==> remote(FamiliesUrl()).Listing?
             && exists k :: 0 <= k < |remote(FamiliesUrl()).records|
                  && remote(FamilyVariantsUrl(Interpolate(Get(remote(FamiliesUrl()).records[k], "code")))).Listing?
  {
    ExportDerivedFile(remote, files, Families, FamilyVariantsFile);
    if remote(FamiliesUrl()).Listing? {
      CollectTouched(remote, FamilyToVariants, remote(FamiliesUrl()).records);
    }
  }

  /**
   * After the attributes export, the attribute options file exists exactly
   * when the attributes were listed and the option listing of at least one
   * select attribute was iterable.
   */
  lemma OptionsFileExists(remote: string -> Fetch, files: map<string, seq<Record>>)
    ensures AttributeOptionsFile in Export(remote, files, Attributes)
        <==> remote(AttributesUrl()).Listing?
             && exists k :: 0 <= k < |remote(AttributesUrl()).records|
                  && HasOptions(remote(AttributesUrl()).records[k])
                  && remote(AttributeOptionsUrl(Interpolate(Get(remote(AttributesUrl()).records[k], "code")))).Listing?
  {
    ExportDerivedFile(remote, files, Attributes, AttributeOptionsFile);
    if remote(AttributesUrl()).Listing? {
      CollectTouched(remote, AttributeToOptions, remote(AttributesUrl()).records);
    }
  }

  /**
   * The k-th variant written by `exportFamilyVariants(familyCode)` is the
   * k-th listed, with its family filled in from `familyCode` when it had
   * none; its other fields are as listed.
   */
  lemma VariantsTagged(remote: string -> Fetch, familyCode: Option<string>, k: int)
    requires remote(FamilyVariantsUrl(Interpolate(familyCode))).Listing?
    requires 0 <= k < |remote(FamilyVariantsUrl(Interpolate(familyCode))).records|
    ensures var listed := remote(FamilyVariantsUrl(Interpolate(familyCode))).records[k];
      var written := VariantsExport(remote, familyCode).records[k];
      && (Truthy(Get(listed, "family")) ==> written == listed)
      && (!Truthy(Get(listed, "family")) ==> Get(written, "family") == familyCode)
      && (forall n :: n != "family" ==> Get(written, n) == Get(listed, n))
  {
    var variants := remote(FamilyVariantsUrl(Interpolate(familyCode))).records;
    InjectAllAt(variants, "family", familyCode, k);
    InjectFields(variants[k], "family", familyCode);
  }

  /**
   * The k-th attribute written by `exportReferenceEntityAttributes` is the
   * k-th listed, with `reference_entity_code` set to the entity code only
   * where it was missing or empty.
   */
  lemma EntityAttributesTagged(remote: string -> Fetch, entityCode: Option<string>, k: int)
    requires remote(ReferenceEntityAttributesUrl(Interpolate(entityCode))).Listing?
    requires 0 <= k < |remote(ReferenceEntityAttributesUrl(Interpolate(entityCode))).records|
    ensures var listed := remote(ReferenceEntityAttributesUrl(Interpolate(entityCode))).records[k];
      var written := EntityAttributesExport(remote, entityCode).records[k];
      && (Truthy(Get(listed, "reference_entity_code")) ==> written == listed)
      && (!Truthy(Get(listed, "reference_entity_code")) ==> Get(written, "reference_entity_code") == entityCode)
      && (forall n :: n != "reference_entity_code" ==> Get(written, n) == Get(listed, n))
  {
    var attributes := remote(ReferenceEntityAttributesUrl(Interpolate(entityCode))).records;
    InjectAllAt(attributes, "reference_entity_code", entityCode, k);
    InjectFields(attributes[k], "reference_entity_code", entityCode);
  }

  /**
   * The k-th option written by `exportReferenceEntityAttributeOptions` is
   * the k-th listed, with the entity code and the attribute code filled in
   * where it had none; its other fields are as listed.
   */
  lemma EntityOptionsTagged(remote: string -> Fetch, entityCode: Option<string>, attributeCode: Option<string>, k: int)
    requires var f := remote(ReferenceEntityAttributeOptionsUrl(Interpolate(entityCode), Interpolate(attributeCode)));
      f.Listing? && 0 <= k < |f.records|
    ensures var listed := remote(ReferenceEntityAttributeOptionsUrl(Interpolate(entityCode), Interpolate(attributeCode))).records[k];
      var written := EntityOptionsExport(remote, entityCode, attributeCode).records[k];
      && Get(written, "reference_entity_code")
         == (if Truthy(Get(listed, "reference_entity_code")) then Get(listed, "reference_entity_code") else entityCode)
      && Get(written, "attribute_code")
         == (if Truthy(Get(listed, "attribute_code")) then Get(listed, "attribute_code") else attributeCode)
      && (forall n :: n != "reference_entity_code" && n != "attribute_code" ==> Get(written, n) == Get(listed, n))
  {
    var options := remote(ReferenceEntityAttributeOptionsUrl(Interpolate(entityCode), Interpolate(attributeCode))).records;
    InjectTwiceAt(options, "reference_entity_code", entityCode, "attribute_code", attributeCode, k);
    InjectFields(options[k], "reference_entity_code", entityCode);
    InjectFields(Inject(options[k], "reference_entity_code", entityCode), "attribute_code", attributeCode);
  }

  /**
   * A failed option listing of a reference-entity attribute: with no code
   * or with status 404 the file is opened and nothing is written; with any
   * other code the failure is returned and the file is not opened.
   */
  lemma EntityOptionsFailure(remote: string -> Fetch, entityCode: Option<string>, attributeCode: Option<string>)
    requires remote(ReferenceEntityAttributeOptionsUrl(Interpolate(entityCode), Interpolate(attributeCode))).Rejected?
    ensures var f := remote(ReferenceEntityAttributeOptionsUrl(Interpolate(entityCode), Interpolate(attributeCode)));
      && (EntityOptionsExport(remote, entityCode, attributeCode) == Append(true, [])
          <==> !HasCode(f.error) || f.error.code == Status(404))
      && (DependentOutcome(f, true) == Returned(f.error) <==> HasCode(f.error) && f.error.code != Status(404))
      && (DependentOutcome(f, true) == Ok <==> !HasCode(f.error) || f.error.code == Status(404))
  {
  }
}
