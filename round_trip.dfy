/**
 * Export followed by import. The mirror directory an export leaves is read
 * back by the matching import: the flat collections are patched back, whole,
 * to the endpoint they were listed from; the grouped ones go through the
 * grouping loop, which loses the last record of the file.
 */
module RoundTrip {
  import opened Records
  import opened Remote
  import opened MirrorStore
  import opened Collections
  import opened Urls
  import opened Exports
  import opened ExportProperties
  import opened Grouping
  import opened Importer

  /**
   * A flat import after the export of the same collection patches the
   * listing back to the endpoint it came from, in one call, or sends nothing
   * for an empty listing. When the listing failed, the import sees the file
   * the export left alone.
   */
  lemma FlatRoundTrip(remote: string -> Fetch, files: map<string, seq<Record>>, c: Collection)
    requires HasFlatImport(c)
    ensures var f := remote(Url(c));
      f.Listing? ==>
        FlatImport(Export(remote, files, c), c) == (Ok, if f.records == [] then [] else [Patch(Url(c), f.records)])
    ensures !remote(Url(c)).Listing? ==> FlatImport(Export(remote, files, c), c) == FlatImport(files, c)
  {
    ExportRootFile(remote, files, c);
  }

  /** The root whose export writes the file a grouped import reads. */
  function Root(g: Grouped): (c: Collection)
    ensures GroupedFile(g) in DerivedFiles(c)
  {
    match g
    case AttributeOptions => Attributes
    case FamilyVariants => Families
  }

  /**
   * A grouped import after the export of its root: it fails with ENOENT when
   * no dependent export of this run touched the file, and otherwise sends
   * what the grouping loop makes of exactly the records this run appended.
   */
  lemma GroupedRoundTrip(remote: string -> Fetch, files: map<string, seq<Record>>, g: Grouped)
    ensures var a := DerivedAppend(remote, Root(g), GroupedFile(g));
      GroupedImport(Export(remote, files, Root(g)), g)
      == if a.touched then (Ok, Sent(g, a.records)) else (Thrown(NoSuchFile), [])
  {
    ExportDerivedFile(remote, files, Root(g), GroupedFile(g));
  }

  /**
   * Family variants after the families export: the import fails exactly when
   * no family's variant listing was iterable (or the families were not
   * listed), and then nothing is sent.
   */
  lemma VariantsRoundTripFails(remote: string -> Fetch, files: map<string, seq<Record>>)
    ensures GroupedImport(Export(remote, files, Families), FamilyVariants).0.Thrown?
        <==> !(remote(FamiliesUrl()).Listing?
               && exists k :: 0 <= k < |remote(FamiliesUrl()).records|
                    && remote(FamilyVariantsUrl(Interpolate(Get(remote(FamiliesUrl()).records[k], "code")))).Listing?)
  {
    VariantsFileExists(remote, files);
  }

  /** One family with one variant that names it: the variants file receives the variant unchanged. */
  lemma LoneVariantAppended(remote: string -> Fetch, family: Record, variant: Record)
    requires Get(family, "code") == Some("shirts") && Get(variant, "family") == Some("shirts")
    requires remote(FamilyVariantsUrl("shirts")) == Listing([variant])
    ensures Collect(remote, FamilyToVariants, [family]) == Append(true, [variant])
  {
    InjectFields(variant, "family", Some("shirts"));
    InjectAllAt([variant], "family", Some("shirts"), 0);
    var tagged := InjectAll([variant], "family", Some("shirts"));
    assert tagged == [variant];
    var v := VariantsExport(remote, Some("shirts"));
    assert v == Append(true, tagged);
    assert Contribution(remote, FamilyToVariants, family) == v;
    CollectStep(remote, FamilyToVariants, [family], 0);
    assert [family][..0] == [] && [family][..1] == [family];
    assert Collect(remote, FamilyToVariants, []) == Untouched;
  }

  /** The grouped round trip for family variants, with the root and the link spelled out. */
  lemma VariantsRoundTrip(remote: string -> Fetch, files: map<string, seq<Record>>, families: seq<Record>)
    requires remote(FamiliesUrl()) == Listing(families)
    ensures var a := Collect(remote, FamilyToVariants, families);
      GroupedImport(Export(remote, files, Families), FamilyVariants)
      == if a.touched then (Ok, Sent(FamilyVariants, a.records)) else (Thrown(NoSuchFile), [])
  {
    GroupedRoundTrip(remote, files, FamilyVariants);
    assert DerivedAppend(remote, Families, FamilyVariantsFile) == Collect(remote, FamilyToVariants, families);
  }

  /**
   * A families export whose one family has one variant, then the variants
   * import: the variant is never sent; only an empty batch goes to the
   * family's endpoint.
   */
  lemma LoneVariantLost(remote: string -> Fetch, files: map<string, seq<Record>>, family: Record, variant: Record)
    requires Get(family, "code") == Some("shirts") && Get(variant, "family") == Some("shirts")
    requires remote(FamiliesUrl()) == Listing([family])
    requires remote(FamilyVariantsUrl("shirts")) == Listing([variant])
    ensures GroupedImport(Export(remote, files, Families), FamilyVariants) == (Ok, [Patch(FamilyVariantsUrl("shirts"), [])])
  {
    LoneVariantAppended(remote, family, variant);
    VariantsRoundTrip(remote, files, [family]);
    SentSingle(variant, FamilyVariants);
  }
}
