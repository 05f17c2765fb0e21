/**
 * What the exports leave in the mirror directory. A root export lists one
 * collection and rewrites its file; the three cascading roots first delete
 * the files their dependents append to, then, for each parent record, run
 * the dependent export, which appends to a shared file. What one dependent
 * export appends is an `Append`; what all the parents of a listing append
 * is their `Collect`ion, in listing order.
 */
module Exports {
  import opened Records
  import opened Remote
  import opened MirrorStore
  import opened Collections
  import opened Urls

  /** The attribute types that have options. */
  predicate HasOptions(attribute: Record)
  {
    Get(attribute, "type") == Some("pim_catalog_simpleselect")
    || Get(attribute, "type") == Some("pim_catalog_multiselect")
  }

  /** The reference-entity attribute types that have options. */
  predicate HasEntityOptions(attribute: Record)
  {
    Get(attribute, "type") == Some("multiple_options")
    || Get(attribute, "type") == Some("single_option")
  }

  /**
   * A failed listing of reference-entity attribute options that the export
   * tolerates: an error without a code, or HTTP 404.
   */
  predicate Tolerated(e: Error)
  {
    !HasCode(e) || e.code == Status(404)
  }

  /** `exportFamilyVariants(familyCode)`: each variant lacking a family is given this one. */
  function VariantsExport(remote: string -> Fetch, familyCode: Option<string>): (a: Append)
    ensures Sound(a)
    ensures a.touched <==> remote(FamilyVariantsUrl(Interpolate(familyCode))).Listing?
    ensures |a.records| == |Listed(remote(FamilyVariantsUrl(Interpolate(familyCode))))|
  {
    match remote(FamilyVariantsUrl(Interpolate(familyCode)))
    case Listing(variants) => Append(true, InjectAll(variants, "family", familyCode))
    case _ => Untouched
  }

  /** `exportAttributeOptions(attributeCode)`: the options as listed. */
  function OptionsExport(remote: string -> Fetch, attributeCode: Option<string>): (a: Append)
    ensures Sound(a)
    ensures a.touched <==> remote(AttributeOptionsUrl(Interpolate(attributeCode))).Listing?
    ensures a.records == Listed(remote(AttributeOptionsUrl(Interpolate(attributeCode))))
  {
    match remote(AttributeOptionsUrl(Interpolate(attributeCode)))
    case Listing(options) => Append(true, options)
    case _ => Untouched
  }

  /** `exportReferenceEntityAttributes(code)`, its own file only: each attribute is given the entity code it lacks. */
  function EntityAttributesExport(remote: string -> Fetch, entityCode: Option<string>): (a: Append)
    ensures Sound(a)
    ensures a.touched <==> remote(ReferenceEntityAttributesUrl(Interpolate(entityCode))).Listing?
    ensures |a.records| == |Listed(remote(ReferenceEntityAttributesUrl(Interpolate(entityCode))))|
  {
    match remote(ReferenceEntityAttributesUrl(Interpolate(entityCode)))
    case Listing(attributes) => Append(true, InjectAll(attributes, "reference_entity_code", entityCode))
    case _ => Untouched
  }

  /**
   * `exportReferenceEntityAttributeOptions(entityCode, attributeCode)`: each
   * option is given the entity and attribute codes it lacks. A tolerated
   * failure leaves the listing at its initial `[]`, so the file is opened
   * (and created) with nothing written.
   */
  function EntityOptionsExport(remote: string -> Fetch, entityCode: Option<string>, attributeCode: Option<string>): (a: Append)
    ensures Sound(a)
    ensures var f := remote(ReferenceEntityAttributeOptionsUrl(Interpolate(entityCode), Interpolate(attributeCode)));
      && (a.touched <==> f.Listing? || (f.Rejected? && Tolerated(f.error)))
      && |a.records| == |Listed(f)|
  {
    match remote(ReferenceEntityAttributeOptionsUrl(Interpolate(entityCode), Interpolate(attributeCode)))
    case Listing(options) =>
      Append(true, InjectAll(InjectAll(options, "reference_entity_code", entityCode), "attribute_code", attributeCode))
    case NotIterable => Untouched
    case Rejected(e) => if Tolerated(e) then Append(true, []) else Untouched
  }

  /** A parent-to-dependent edge of the cascades, with the parent code it carries. */
  datatype Link =
    | FamilyToVariants
    | AttributeToOptions
    | EntityToAttributes
    | EntityToAttributeOptions
    | AttributeToEntityOptions(entityCode: Option<string>)

  /** The nesting depth of a link's contribution, for termination. */
  function Depth(link: Link): nat
  {
    if link.EntityToAttributeOptions? then 1 else 0
  }

  /** What the dependent export run for one parent appends along the link. */
  function Contribution(remote: string -> Fetch, link: Link, parent: Record): (a: Append)
    ensures Sound(a)
    decreases Depth(link), 1, 0
  {
    match link
    case FamilyToVariants => VariantsExport(remote, Get(parent, "code"))
    case AttributeToOptions =>
      if HasOptions(parent) then OptionsExport(remote, Get(parent, "code")) else Untouched
    case EntityToAttributes => EntityAttributesExport(remote, Get(parent, "code"))
    case EntityToAttributeOptions => EntityAttributesOptions(remote, Get(parent, "code"))
    case AttributeToEntityOptions(entityCode) =>
      if HasEntityOptions(parent) then EntityOptionsExport(remote, entityCode, Get(parent, "code")) else Untouched
  }

  /**
   * `exportReferenceEntityAttributes(code)`, the options file: the option
   * exports of the listed attributes, read after the entity code was filled in.
   */
  function EntityAttributesOptions(remote: string -> Fetch, entityCode: Option<string>): (a: Append)
    ensures Sound(a)
    decreases 1, 0, 0
  {
    match remote(ReferenceEntityAttributesUrl(Interpolate(entityCode)))
    case Listing(attributes) =>
      Collect(remote, AttributeToEntityOptions(entityCode), InjectAll(attributes, "reference_entity_code", entityCode))
    case _ => Untouched
  }

  /** What the dependent exports of all the parents append, in listing order. */
  function Collect(remote: string -> Fetch, link: Link, parents: seq<Record>): (a: Append)
    ensures Sound(a)
    decreases Depth(link), 2, |parents|
  {
    if parents == [] then Untouched
    else Then(Collect(remote, link, parents[..|parents| - 1]), Contribution(remote, link, parents[|parents| - 1]))
  }

  /** The parents up to and including the i-th append what those before it append, then the i-th's contribution. */
  lemma CollectStep(remote: string -> Fetch, link: Link, parents: seq<Record>, i: int)
    requires 0 <= i < |parents|
    ensures Collect(remote, link, parents[..i + 1])
         == Then(Collect(remote, link, parents[..i]), Contribution(remote, link, parents[i]))
  {
    assert parents[..i + 1][..i] == parents[..i];
  }

  /** The dependents' shared file is created exactly when one of the parents' dependent exports touches it. */
  lemma {:induction false} CollectTouched(remote: string -> Fetch, link: Link, parents: seq<Record>)
    ensures Collect(remote, link, parents).touched
        <==> exists k :: 0 <= k < |parents| && Contribution(remote, link, parents[k]).touched
    decreases |parents|
  {
    if parents != [] {
      var n := |parents| - 1;
      var front := parents[..n];
      var c, last := Collect(remote, link, front), Contribution(remote, link, parents[n]);
      assert Collect(remote, link, parents) == Then(c, last);
      CollectTouched(remote, link, front);
      if c.touched {
        var k :| 0 <= k < |front| && Contribution(remote, link, front[k]).touched;
        assert parents[k] == front[k];
      } else if !last.touched {
        forall k | 0 <= k < |parents| ensures !Contribution(remote, link, parents[k]).touched {
          if k < n {
            assert front[k] == parents[k];
          }
        }
      }
    }
  }

  /**
   * The dependents' shared file receives what each parent's dependent export
   * appends, parent by parent: the i-th parent's records follow those of the
   * parents before it.
   */
  lemma CollectPrefix(remote: string -> Fetch, link: Link, parents: seq<Record>, i: int)
    requires 0 <= i <= |parents|
    ensures Collect(remote, link, parents[..i]).records <= Collect(remote, link, parents).records
    decreases |parents| - i
  {
    if i < |parents| {
      CollectPrefix(remote, link, parents, i + 1);
      CollectStep(remote, link, parents, i);
    } else {
      assert parents[..i] == parents;
    }
  }

  /** The files a root export deletes before listing. */
  function DerivedFiles(c: Collection): (names: set<string>)
    ensures forall n :: n in names ==> IsDerivedFile(n)
  {
    match c
    case Families => {FamilyVariantsFile}
    case Attributes => {AttributeOptionsFile}
    case ReferenceEntities => {ReferenceEntityAttributesFile, ReferenceEntityAttributeOptionsFile}
    case _ => {}
  }

  /**
   * The directory after the export of the root collection `c`: its
   * dependents' files deleted, then, when the listing is iterable, its file
   * rewritten with the listing and the dependents' files appended to.
   */
  function Export(remote: string -> Fetch, files: map<string, seq<Record>>, c: Collection): map<string, seq<Record>>
  {
    var base := files - DerivedFiles(c);
    match remote(Url(c))
    case Listing(rs) =>
      var written := base[FileName(c) := rs];
      (match c
       case Families => Extend(written, FamilyVariantsFile, Collect(remote, FamilyToVariants, rs))
       case Attributes => Extend(written, AttributeOptionsFile, Collect(remote, AttributeToOptions, rs))
       case ReferenceEntities =>
         Extend(Extend(written, ReferenceEntityAttributesFile, Collect(remote, EntityToAttributes, rs)),
                ReferenceEntityAttributeOptionsFile, Collect(remote, EntityToAttributeOptions, rs))
       case _ => written)
    case _ => base
  }

  /**
   * How a root export ends: a failed listing is returned, except by the
   * attributes export, whose listing is not guarded and rejects; anything
   * else, including every failure of a dependent export, ends with `OK`.
   */
  function ExportOutcome(remote: string -> Fetch, c: Collection): (outcome: Outcome)
    ensures outcome.Ok? <==> !remote(Url(c)).Rejected?
    ensures outcome.Thrown? <==> remote(Url(c)).Rejected? && c == Attributes
    ensures !outcome.Ok? ==> outcome.error == remote(Url(c)).error
  {
    match remote(Url(c))
    case Rejected(e) => if c == Attributes then Thrown(e) else Returned(e)
    case _ => Ok
  }

  /** How a dependent export ends: its own failed listing is returned, never thrown. */
  function DependentOutcome(fetched: Fetch, tolerate: bool): (outcome: Outcome)
    ensures !outcome.Thrown?
    ensures outcome.Returned? <==> fetched.Rejected? && !(tolerate && Tolerated(fetched.error))
  {
    if fetched.Rejected? && !(tolerate && Tolerated(fetched.error)) then Returned(fetched.error) else Ok
  }
}
