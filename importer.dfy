/**
 * The imports: each reads one mirror file back, turns its text into a JSON
 * array by string surgery, parses it, and patches the records to the
 * catalog service. Six collections are patched in one call; attribute
 * options and family variants go through the grouping loop.
 *
 * `JSON.parse` is a parameter, assumed to read back the array text of any
 * sequence of records (`IsParser`).
 */
module Importer {
  import opened Records
  import opened Remote
  import opened MirrorText
  import opened MirrorStore
  import opened Collections
  import opened Grouping

  /** What is assumed of `JSON.parse`: it inverts the array text of any records. */
  ghost predicate IsParser(parse: string -> seq<Record>, ser: Record -> string)
  {
    forall rs :: parse(JsonArray(SerializeAll(ser, rs))) == rs
  }

  /** The file a grouped import reads. */
  function GroupedFile(g: Grouped): string
  {
    match g
    case AttributeOptions => AttributeOptionsFile
    case FamilyVariants => FamilyVariantsFile
  }

  /**
   * What a flat import does with the directory: it fails with ENOENT when
   * the file is missing, sends nothing for an empty file, and otherwise
   * sends the whole file in one `patch` to the collection's endpoint.
   */
  function FlatImport(files: map<string, seq<Record>>, c: Collection): (result: (Outcome, seq<Patch>))
    ensures FileName(c) !in files <==> result.0.Thrown?
    ensures result.0.Thrown? ==> result == (Thrown(NoSuchFile), [])
    ensures FileName(c) in files ==> result.0 == Ok
    ensures |result.1| <= 1
    ensures forall p :: p in result.1 ==> p.url == Url(c) && p.body != []
    ensures Bodies(result.1) == ContentOf(files, FileName(c))
  {
    var name := FileName(c);
    if name !in files then (Thrown(NoSuchFile), [])
    else if files[name] == [] then (Ok, [])
    else
      var sent := [Patch(Url(c), files[name])];
      assert Bodies(sent) == Bodies([]) + files[name];
      (Ok, sent)
  }

  /**
   * What a grouped import does with the directory: it fails with ENOENT when
   * the file is missing, and otherwise sends what the grouping loop sends
   * for the file's records.
   */
  function GroupedImport(files: map<string, seq<Record>>, g: Grouped): (result: (Outcome, seq<Patch>))
    ensures GroupedFile(g) !in files <==> result.0.Thrown?
    ensures result.0.Thrown? ==> result == (Thrown(NoSuchFile), [])
    ensures GroupedFile(g) in files ==> result.0 == Ok
    ensures GroupedFile(g) in files ==> result.1 == Sent(g, files[GroupedFile(g)])
  {
    var name := GroupedFile(g);
    if name !in files then (Thrown(NoSuchFile), []) else (Ok, Sent(g, files[name]))
  }

  /**
   * The buffer of a file, once wrapped in brackets, parses back to the
   * records export wrote, and it is empty exactly when there are none.
   */
  lemma ParseBuffer(ser: Record -> string, parse: string -> seq<Record>, rs: seq<Record>)
    requires IsSerializer(ser) && IsParser(parse, ser)
    ensures parse("[ " + Reconstruct(FileText(ser, rs)) + " ]") == rs
    ensures |Reconstruct(FileText(ser, rs))| > 0 <==> rs != []
  {
    ReconstructFileText(ser, rs);
    BufferEmptyIff(ser, rs);
  }

  /** One of the six single-`patch` imports (association types, attributes, ...). */
  method ImportFlat(store: Mirror, ser: Record -> string, parse: string -> seq<Record>, c: Collection)
    returns (outcome: Outcome, sent: seq<Patch>)
    requires IsSerializer(ser) && IsParser(parse, ser)
    requires HasFlatImport(c)
    ensures (outcome, sent) == FlatImport(store.files, c)
  {
    var text := store.Read(ser, FileName(c));
    if text.None? {
      return Thrown(NoSuchFile), [];
    }
    ParseBuffer(ser, parse, store.files[FileName(c)]);
    var buffer := Reconstruct(text.value);
    sent := [];
    if |buffer| > 0 {
      var records := parse("[ " + buffer + " ]");
      sent := [Patch(Url(c), records)];
    }
    outcome := Ok;
  }

  /** `importAttributeOptions` and `importFamilyVariants`. */
  method ImportGrouped(store: Mirror, ser: Record -> string, parse: string -> seq<Record>, g: Grouped)
    returns (outcome: Outcome, sent: seq<Patch>)
    requires IsSerializer(ser) && IsParser(parse, ser)
    ensures (outcome, sent) == GroupedImport(store.files, g)
  {
    var text := store.Read(ser, GroupedFile(g));
    if text.None? {
      return Thrown(NoSuchFile), [];
    }
    ParseBuffer(ser, parse, store.files[GroupedFile(g)]);
    var buffer := Reconstruct(text.value);
    sent := [];
    if |buffer| > 0 {
      var records := parse("[ " + buffer + " ]");
      sent := GroupAndPatch(g, records);
    }
    outcome := Ok;
  }
}
