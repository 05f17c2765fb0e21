/**
 * The directory of mirror files: one line-delimited JSON file per resource
 * type, held here as the sequence of records it contains. File names are
 * the fixed names of the exporter; the export root directory is left out.
 */
module MirrorStore {
  import opened Records
  import opened Remote
  import opened MirrorText

  const AssociationTypesFile := "associationTypes.json"
  const AttributesFile := "attributes.json"
  const AttributeGroupsFile := "attributeGroups.json"
  const AttributeOptionsFile := "attributeOptions.json"
  const CategoriesFile := "categories.json"
  const ChannelsFile := "channels.json"
  const CurrenciesFile := "currencies.json"
  const FamiliesFile := "families.json"
  const FamilyVariantsFile := "familyVariants.json"
  const LocalesFile := "locales.json"
  const MeasureFamiliesFile := "measureFamilies.json"
  const ProductsFile := "products.json"
  const ProductModelsFile := "productModels.json"
  const ReferenceEntitiesFile := "referenceEntities.json"
  const ReferenceEntityAttributesFile := "referenceEntityAttributes.json"
  const ReferenceEntityAttributeOptionsFile := "referenceEntityAttributeOptions.json"

  /** The records of a file; a file that does not exist reads as empty. */
  function ContentOf(files: map<string, seq<Record>>, name: string): seq<Record>
  {
    if name in files then files[name] else []
  }

  /**
   * What one export does to a file it appends to: whether it touched the file
   * (which creates it) and the records it wrote there, in order.
   */
  datatype Append = Append(touched: bool, records: seq<Record>)

  const Untouched := Append(false, [])

  /** Nothing is written to a file that was never touched. */
  predicate Sound(a: Append)
  {
    !a.touched ==> a.records == []
  }

  /** One append followed by another. */
  function Then(a: Append, b: Append): Append
  {
    Append(a.touched || b.touched, a.records + b.records)
  }

  /** The directory after the append `a` to the file `name`. */
  function Extend(files: map<string, seq<Record>>, name: string, a: Append): map<string, seq<Record>>
  {
    if a.touched then files[name := ContentOf(files, name) + a.records] else files
  }

  lemma ExtendThen(files: map<string, seq<Record>>, name: string, a: Append, b: Append)
    requires Sound(a) && Sound(b)
    ensures Extend(Extend(files, name, a), name, b) == Extend(files, name, Then(a, b))
  {
    if !a.touched {
      assert Then(a, b) == b;
    } else if !b.touched {
      assert Then(a, b) == a;
    } else {
      var c := ContentOf(files, name);
      assert ContentOf(Extend(files, name, a), name) == c + a.records;
      assert c + a.records + b.records == c + (a.records + b.records);
    }
  }

  /** An append to one file leaves every other file as it was. */
  lemma ExtendKeeps(files: map<string, seq<Record>>, name: string, a: Append, other: string)
    requires other != name
    ensures other in Extend(files, name, a) <==> other in files
    ensures other in files ==> Extend(files, name, a)[other] == files[other]
  {
  }

  lemma ExtendCommutes(files: map<string, seq<Record>>, n1: string, a1: Append, n2: string, a2: Append)
    requires n1 != n2
    ensures Extend(Extend(files, n1, a1), n2, a2) == Extend(Extend(files, n2, a2), n1, a1)
  {
  }

  /** Writing another file does not interfere with an append. */
  lemma ExtendUpdate(files: map<string, seq<Record>>, name: string, a: Append, other: string, rs: seq<Record>)
    requires other != name
    ensures Extend(files, name, a)[other := rs] == Extend(files[other := rs], name, a)
  {
  }

  /** Opening a file for appending, before anything is written, is a touch without records. */
  lemma ExtendOpened(files: map<string, seq<Record>>, name: string)
    ensures Extend(files, name, Append(true, [])) == files[name := ContentOf(files, name)]
  {
    assert ContentOf(files, name) + [] == ContentOf(files, name);
  }

  /** One more record written to a file being appended to extends the append. */
  lemma ExtendWrite(files: map<string, seq<Record>>, name: string, rs: seq<Record>, r: Record)
    ensures Extend(files, name, Append(true, rs))[name := ContentOf(files, name) + rs + [r]]
         == Extend(files, name, Append(true, rs + [r]))
  {
    assert ContentOf(files, name) + rs + [r] == ContentOf(files, name) + (rs + [r]);
  }

  /** Rewriting a file beneath two appends to other files. */
  lemma UpdateUnderTwo(files: map<string, seq<Record>>, d1: string, a1: Append, d2: string, a2: Append,
                       name: string, rs: seq<Record>)
    requires name != d1 && name != d2
    ensures Extend(Extend(files, d1, a1), d2, a2)[name := rs] == Extend(Extend(files[name := rs], d1, a1), d2, a2)
  {
    ExtendUpdate(Extend(files, d1, a1), d2, a2, name, rs);
    ExtendUpdate(files, d1, a1, name, rs);
  }

  /** A file rewritten twice holds what the second write put there. */
  lemma RewriteTwice(files: map<string, seq<Record>>, name: string, first: seq<Record>, second: seq<Record>)
    ensures files[name := first][name := second] == files[name := second]
  {
  }

  /** Two appends to each of two files merge file by file. */
  lemma ExtendTwoThen(files: map<string, seq<Record>>, d1: string, c1: Append, a1: Append, d2: string, c2: Append, a2: Append)
    requires d1 != d2
    requires Sound(c1) && Sound(a1) && Sound(c2) && Sound(a2)
    ensures Extend(Extend(Extend(Extend(files, d1, c1), d2, c2), d1, a1), d2, a2)
         == Extend(Extend(files, d1, Then(c1, a1)), d2, Then(c2, a2))
  {
    ExtendCommutes(Extend(files, d1, c1), d2, c2, d1, a1);
    ExtendThen(files, d1, c1, a1);
    ExtendThen(Extend(files, d1, Then(c1, a1)), d2, c2, a2);
  }

  /** The mirror directory. */
  class Mirror {
    var files: map<string, seq<Record>>

    constructor (initial: map<string, seq<Record>>)
      ensures files == initial
    {
      files := initial;
    }

    /** `open(name, 'w')`: creates the file or truncates it. */
    method OpenTruncate(name: string)
      modifies this
      ensures files == old(files)[name := []]
    {
      files := files[name := []];
    }

    /** `open(name, 'a')`: creates the file if it is missing, keeps its records otherwise. */
    method OpenAppend(name: string)
      modifies this
      ensures files == old(files)[name := ContentOf(old(files), name)]
    {
      files := files[name := ContentOf(files, name)];
    }

    /**
     * `open(name, 'r')` and `read`: the text export left in the file, or
     * `None` when the file does not exist and `open` fails with ENOENT.
     */
    method Read(ser: Record -> string, name: string) returns (text: Option<string>)
      ensures name in files <==> text.Some?
      ensures name in files ==> text.value == FileText(ser, files[name])
    {
      text := if name in files then Some(FileText(ser, files[name])) else None;
    }

    /** `write(fd, JSON.stringify(r) + '\n')` on a file opened before. */
    method Write(name: string, r: Record)
      requires name in files
      modifies this
      ensures files == old(files)[name := old(files)[name] + [r]]
    {
      files := files[name := files[name] + [r]];
    }

    /**
     * `unlink(name)` with its error caught: a missing file (ENOENT) is
     * tolerated, and the directory is without the file afterwards.
     */
    method Unlink(name: string) returns (error: Option<Error>)
      modifies this
      ensures files == old(files) - {name}
      ensures error == if name in old(files) then None else Some(NoSuchFile)
    {
      error := if name in files then None else Some(NoSuchFile);
      files := files - {name};
    }
  }
}
