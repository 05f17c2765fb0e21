# nodeakeneo mirror, modelled in Dafny

nodeakeneo copies an Akeneo PIM catalog into a directory of mirror files and
back. `src/akeneo.ts` does all of the work:

- Each **export** lists one REST collection. It writes every record as one
  line of JSON, `JSON.stringify(r) + '\n'`, to a file named after the
  collection.
- Three exports **cascade**, running a dependent export for each record
  they list:
  - families run the family-variant export;
  - select attributes run the attribute-option export;
  - reference entities run the reference-entity attribute export, and
    option-typed attributes run the option export under it.
- Dependent exports append to one shared file. That file is deleted before
  the root listing starts.
- Each **import** reads a file back. It replaces every line break with
  `", "`, cuts the last two characters, wraps the result in `[ … ]`, parses
  it and patches the records to the service.
  - Six collections go back in one `patch`.
  - Attribute options and family variants go through a grouping loop. The
    loop sends one batch per run. A record joins the current batch only
    when its parent field equals the current code. A record without the
    field never does, so such records go one per batch, to the endpoint of
    the empty code `''`.

The model has these parts:

- **Records.** A record is a JSON object with string-valued fields
  (`Records`).
- **Service and file system.** The HTTP client is a function from URL to
  fetch result (`Remote`). The mirror directory is a `Mirror` object whose
  `files` map goes from file name to the records in the file
  (`MirrorStore`).
- **Exports.** `Exports` says what the exports leave in the directory.
  `Exporter` implements them as methods that loop, write and recurse the way
  the source does. Each method is proved to leave exactly that directory and
  to return the outcome the source returns.
- **Imports.** `MirrorText` covers the line format and the string surgery.
  `Grouping` covers the grouping loop as written. `Importer` covers the
  imports.
- **Properties.** `ExportProperties` and `RoundTrip` state what an export
  leaves file by file, and what an import sends after an export.

`JSON.stringify` is a parameter `ser`. It is assumed injective, non-empty
and free of line breaks (`IsSerializer`). `JSON.parse` is a parameter
`parse`, assumed to read back the array text of any sequence of records
(`IsParser`). The `get` and `patch` calls of the HTTP client, and the file
system, are replaced as described above. The export directory prefix is
dropped from file names.

## Model

| member | source | states |
|---|---|---|
| Urls.FamiliesUrl | src/akeneo.ts:57-59 | Defines the families endpoint `/api/rest/v1/families` |
| Urls.FamilyVariantsUrl | src/akeneo.ts:61-63 | Defines the variants endpoint of a family: the families endpoint, then `/`, the code and `/variants`; injective by `Urls.FamilyVariantsUrlInjective` |
| Urls.AttributesUrl | src/akeneo.ts:65-67 | Defines the attributes endpoint `/api/rest/v1/attributes` |
| Urls.AttributeOptionsUrl | src/akeneo.ts:69-71 | Defines the options endpoint of an attribute: the attributes endpoint, then `/`, the code and `/options`; injective by `Urls.AttributeOptionsUrlInjective` |
| Urls.AttributeGroupsUrl | src/akeneo.ts:73-75 | Defines the attribute-groups endpoint `/api/rest/v1/attribute-groups` |
| Urls.AssociationTypesUrl | src/akeneo.ts:77-79 | Defines the association-types endpoint `/api/rest/v1/association-types` |
| Urls.CategoriesUrl | src/akeneo.ts:81-83 | Defines the categories endpoint `/api/rest/v1/categories` |
| Urls.ProductsUrl | src/akeneo.ts:87-89 | Defines the products endpoint `/api/rest/v1/products` |
| Urls.ProductModelsUrl | src/akeneo.ts:91-93 | Defines the product-models endpoint `/api/rest/v1/product-models` |
| Urls.ChannelsUrl | src/akeneo.ts:105-107 | Defines the channels endpoint `/api/rest/v1/channels` |
| Urls.LocalesUrl | src/akeneo.ts:109-111 | Defines the locales endpoint `/api/rest/v1/locales` |
| Urls.CurrenciesUrl | src/akeneo.ts:113-115 | Defines the currencies endpoint `/api/rest/v1/currencies` |
| Urls.MeasureFamiliesUrl | src/akeneo.ts:117-119 | Defines the measure-families endpoint `/api/rest/v1/measure-families` |
| Urls.ReferenceEntitiesUrl | src/akeneo.ts:123-125 | Defines the reference-entities endpoint `/api/rest/v1/reference-entities` |
| Urls.ReferenceEntityAttributesUrl | src/akeneo.ts:127-129 | Defines the attributes endpoint of a reference entity, written out in full; injective by `Urls.ReferenceEntityAttributesUrlInjective`, nested by `Urls.ReferenceEntityUrlsNest` |
| Urls.ReferenceEntityAttributeOptionsUrl | src/akeneo.ts:131-133 | Defines the options endpoint of a reference-entity attribute, written out in full; nested under the attributes endpoint by `Urls.ReferenceEntityUrlsNest` |
| Urls.ReferenceEntityUrlsNest | src/akeneo.ts:123-133 | The reference-entity endpoints are spelled out in full, yet the attributes endpoint is the entities endpoint plus `/code/attributes` and the options endpoint is the attributes endpoint plus `/code/options` |
| Urls.FamilyVariantsUrlInjective | src/akeneo.ts:57-63 | Two family codes give the same variants endpoint iff they are equal |
| Urls.AttributeOptionsUrlInjective | src/akeneo.ts:65-71 | Two attribute codes give the same options endpoint iff they are equal |
| Urls.ReferenceEntityAttributesUrlInjective | src/akeneo.ts:127-129 | Two entity codes give the same attributes endpoint iff they are equal |
| Urls.NestedCollectionsDisjoint | src/akeneo.ts:61-71 | A variants endpoint is never an options endpoint |
| Collections.Url | src/akeneo.ts:57-125 | Defines the endpoint each root collection is listed from and, for the six flat imports, patched back to |
| Collections.FileName | src/akeneo.ts:31-44 | Defines the mirror file of each root collection, one of the file-name constants |
| Collections.HasFlatExport | src/akeneo.ts:333-355 | Defines the nine exports that are a plain fetch-and-write, shaped like `exportAssociationTypes` |
| Collections.HasFlatImport | src/akeneo.ts:165-291 | Defines the six imports that patch the whole file in one call |
| Collections.RootFilesNotDerived | src/akeneo.ts:31-46 | No root collection's file name is one of the four files the cascades append to |
| Records.Interpolate | src/akeneo.ts:61-63 | Defines `${v}` in a template literal: a string prints as itself, an absent field as `undefined` |
| Records.Inject | src/akeneo.ts:570-572 | Defines `if (!(r.f)) { r.f = v; }`; what it keeps and sets is stated by `Records.InjectFields` |
| Records.InjectAll | src/akeneo.ts:567-574 | Defines the tagging loop over a listing; it keeps the length, and `Records.InjectAllAt` states it record by record |
| Records.Delete | src/akeneo.ts:316 | `delete r.family` removes that field and keeps every other field |
| Records.InjectFields | src/akeneo.ts:570-572 | Filling in a parent code keeps a record whose field is set; otherwise the field reads as the parent code (absent if that is `undefined`); other fields are unchanged |
| Records.InjectAllAt | src/akeneo.ts:567-574 | The k-th record written by a tagging loop is the k-th listed record, tagged |
| MirrorText.FileText | src/akeneo.ts:349-351 | Defines the text export leaves: `JSON.stringify(r) + '\n'` per record, in order; stated by `MirrorText.ReplaceFileText` and `MirrorText.FileTextInjective` |
| MirrorText.ReplaceNewlines | src/akeneo.ts:171 | Defines `.replace(/\n/gi, ', ')`, character by character |
| MirrorText.DropLastTwo | src/akeneo.ts:171 | Defines `.slice(0, -2)`: a negative end counts from the length and is clamped at 0 |
| MirrorText.Reconstruct | src/akeneo.ts:171 | Defines the buffer an import builds from a file's text; what it yields for an exported file is stated by `MirrorText.ReconstructFileText` |
| MirrorText.ReconstructFileText | src/akeneo.ts:171-174 | For the text export writes, the buffer is exactly the serialisations joined by `", "`, and `[ buffer ]` is their JSON array |
| MirrorText.ReplaceFileText | src/akeneo.ts:171 | Replacing line breaks in the file text gives the joined serialisations plus a trailing `", "`, or nothing for an empty file |
| MirrorText.BufferEmptyIff | src/akeneo.ts:171-173 | The buffer is empty exactly when the file holds no record, so the `buffer.length > 0` guard skips exactly the empty files |
| MirrorText.ReconstructBlank | src/akeneo.ts:171 | An empty file and a file holding one line break both give an empty buffer |
| MirrorText.FileTextInjective | src/akeneo.ts:350 | Two record sequences with the same file text are equal |
| MirrorText.UnterminatedLastLine | src/akeneo.ts:171 | A file whose last line lacks its terminator loses the last two characters of its last record |
| MirrorStore.Mirror.OpenTruncate | src/akeneo.ts:348 | `open(…, 'w')` leaves the file empty and touches nothing else |
| MirrorStore.Mirror.OpenAppend | src/akeneo.ts:566 | `open(…, 'a')` creates a missing file empty and keeps an existing one |
| MirrorStore.Mirror.Read | src/akeneo.ts:170-171 | Reading yields the file's text when it exists and ENOENT otherwise |
| MirrorStore.Mirror.Write | src/akeneo.ts:350 | A write appends one record to the file and changes nothing else |
| MirrorStore.Mirror.Unlink | src/akeneo.ts:517-523 | After `unlink` the file is gone; a missing file is reported as ENOENT and tolerated |
| MirrorStore.ExtendThen | src/akeneo.ts:566-574 | Two successive appends to a file are one append of both, in order |
| MirrorStore.ExtendCommutes | src/akeneo.ts:739-757 | Appends to two different files commute |
| Exports.HasOptions | src/akeneo.ts:378-379 | Defines the attribute types whose options are exported: simple and multi select |
| Exports.HasEntityOptions | src/akeneo.ts:747-748 | Defines the reference-entity attribute types whose options are exported: multiple and single option |
| Exports.Tolerated | src/akeneo.ts:772-777 | Defines the option-listing failures that are passed over silently: an error without a code, or 404 (the others are logged and returned) |
| Exports.VariantsExport | src/akeneo.ts:551-578 | The variants file is touched exactly when the variant listing is iterable, and receives one line per listed variant |
| Exports.OptionsExport | src/akeneo.ts:417-439 | The options file is touched exactly when the option listing is iterable, and receives the listed options as listed |
| Exports.EntityAttributesExport | src/akeneo.ts:726-760 | The entity attributes file is touched exactly when the attribute listing is iterable, and receives one line per listed attribute |
| Exports.EntityOptionsExport | src/akeneo.ts:762-794 | The options file is opened exactly when the listing is iterable or failed without a code or with 404, and receives one line per listed option |
| Exports.Contribution | src/akeneo.ts:537-545 | What the dependent export run for one parent appends along a link; it writes nothing to a file it does not touch. `Exports.CollectTouched` and the `Exporter` methods tie it to the source |
| Exports.EntityAttributesOptions | src/akeneo.ts:741-757 | What `exportReferenceEntityAttributes` appends to the options file: the option exports of its option-typed attributes, after the entity code was filled in; it writes nothing to a file it does not touch |
| Exports.Collect | src/akeneo.ts:537-545 | What the dependent exports of all parents append, in listing order; it writes nothing to a file it does not touch. `Exports.CollectStep`, `Exports.CollectTouched` and `Exports.CollectPrefix` state it |
| Exports.CollectStep | src/akeneo.ts:537-545 | The parents up to the i-th append what those before it appended, then what the i-th's dependent export appends |
| Exports.CollectTouched | src/akeneo.ts:537-545 | The shared file is touched iff some parent's dependent export touched it |
| Exports.CollectPrefix | src/akeneo.ts:537-545 | What the first i parents append is a prefix of what all of them append |
| Exports.DerivedFiles | src/akeneo.ts:517-523 | The files a root deletes first are all files the cascades append to: the variants file for families (517-523), the options file for attributes (361-367), and both reference-entity dependents' files for reference entities (684-697) |
| Exports.Export | src/akeneo.ts:513-549 | Defines the directory a root export leaves: its dependents' files deleted, its own file rewritten with an iterable listing, then each dependents' file extended by `Exports.Collect`. The same shape covers 333-355, 357-391 and 680-724. `ExportProperties.ExportRootFile`, `ExportDerivedFile`, `ExportKeepsOthers` and `ExportIdempotent` state it file by file, and every `Exporter` method is proved to end in it |
| Exports.ExportOutcome | src/akeneo.ts:369-391 | A root ends `OK` iff its listing did not fail; a failure is thrown by the attributes export, whose listing at 369 is unguarded, and returned by every other root, as at 526-532 |
| Exports.DependentOutcome | src/akeneo.ts:421-428 | Within the modelled fetch results, a dependent export never throws; it returns its listing's error, unless the error is tolerated where it is. A listing that resolves to `undefined`, not modelled, makes it reject instead |
| ExportProperties.DerivedAppend | src/akeneo.ts:534-547 | A root touches its dependents' file only when its own listing is iterable |
| ExportProperties.ExportRootFile | src/akeneo.ts:345-352 | After an export the collection's file holds the listing when it is iterable; otherwise the file is as it was, present or not |
| ExportProperties.ExportDerivedFile | src/akeneo.ts:517-547 | A dependents' file exists after the export iff this run touched it, and then holds only what this run appended |
| ExportProperties.ExportKeepsOthers | src/akeneo.ts:513-549 | Every other file is left as it was |
| ExportProperties.ExportIdempotent | src/akeneo.ts:513-549 | Exporting twice against the same service leaves the same directory as exporting once |
| ExportProperties.VariantsFileExists | src/akeneo.ts:533-547 | After the families export the variants file exists iff the families were listed and some family's variant listing was iterable |
| ExportProperties.OptionsFileExists | src/akeneo.ts:372-386 | After the attributes export the options file exists iff the attributes were listed and some select attribute's option listing was iterable |
| ExportProperties.VariantsTagged | src/akeneo.ts:565-574 | The k-th written variant is the k-th listed, with `family` set to the parent code only where it was missing or empty |
| ExportProperties.EntityAttributesTagged | src/akeneo.ts:741-746 | The k-th written attribute is the k-th listed, with `reference_entity_code` set to the entity code only where it was missing or empty |
| ExportProperties.EntityOptionsTagged | src/akeneo.ts:782-789 | The k-th written option carries the entity code and the attribute code only where it lacked them, and is otherwise as listed |
| ExportProperties.EntityOptionsFailure | src/akeneo.ts:768-781 | A failed option listing with no code or with 404 opens the file, writes nothing and ends `OK`; any other code is returned and the file is not opened |
| Exporter.ExportFlat | src/akeneo.ts:333-355 | The nine exports without dependents leave the directory `Export` describes and end with `ExportOutcome` |
| Exporter.WriteLines | src/akeneo.ts:347-352 | Truncating a file and writing the listing leaves exactly the listing in it |
| Exporter.ExportFamilyVariants | src/akeneo.ts:551-578 | The variants file grows by what `VariantsExport` appends; the outcome is the listing's error or `OK` |
| Exporter.ExportFamilies | src/akeneo.ts:513-549 | The directory afterwards is `Export(…, Families)`; the outcome is `ExportOutcome`; a variant failure does not stop the loop |
| Exporter.WriteFamilies | src/akeneo.ts:535-547 | The families file holds the families, and the variants file grows by their variants in family order |
| Exporter.ExportAttributeOptions | src/akeneo.ts:417-439 | The options file grows by what `OptionsExport` appends; the outcome is the listing's error or `OK` |
| Exporter.ExportAttributes | src/akeneo.ts:357-391 | The directory afterwards is `Export(…, Attributes)`; a failed listing is thrown |
| Exporter.WriteAttributes | src/akeneo.ts:374-388 | The attributes file holds the attributes, and the options file grows by the options of the select attributes, in order |
| Exporter.ExportReferenceEntityAttributeOptions | src/akeneo.ts:762-794 | The options file grows by what `EntityOptionsExport` appends; a tolerated failure still opens the file |
| Exporter.AppendOptions | src/akeneo.ts:780-791 | The options file grows by the listed options, each tagged with the entity and attribute codes |
| Exporter.ExportReferenceEntityAttributes | src/akeneo.ts:726-760 | The attributes file grows by the tagged attributes, and the options file grows by their options, attribute by attribute |
| Exporter.ExportReferenceEntities | src/akeneo.ts:680-724 | The directory afterwards is `Export(…, ReferenceEntities)`; the outcome is `ExportOutcome` |
| Exporter.WriteEntities | src/akeneo.ts:710-721 | The entities file holds the entities, and both dependents' files grow entity by entity |
| Importer.IsParser | src/akeneo.ts:174 | What is assumed of `JSON.parse`: it reads the array text of any records back to those records |
| Importer.GroupedFile | src/akeneo.ts:213-218 | Defines the file each grouped import reads |
| Importer.FlatImport | src/akeneo.ts:165-179 | A flat import throws ENOENT iff the file is missing, sends at most one non-empty patch to the collection's endpoint, and sends the file's records in order |
| Importer.GroupedImport | src/akeneo.ts:213-241 | A grouped import throws ENOENT iff the file is missing, and otherwise sends what the grouping loop sends for the file's records |
| Importer.ParseBuffer | src/akeneo.ts:171-174 | `JSON.parse` of the bracketed buffer gives back the records export wrote, and the buffer is empty iff there are none |
| Importer.ImportFlat | src/akeneo.ts:165-179 | The six single-patch imports send what `FlatImport` describes |
| Importer.ImportGrouped | src/akeneo.ts:293-322 | The two grouped imports send what `GroupedImport` describes |
| Grouping.KeyField | src/akeneo.ts:223-228 | Defines the field naming the parent: `attribute` for options, `family` for variants |
| Grouping.BatchUrl | src/akeneo.ts:230 | Defines the endpoint a batch is patched to: the options or variants endpoint of the batch's code |
| Grouping.Payload | src/akeneo.ts:316 | Defines a record as sent: a variant loses `family`, an option is sent as read |
| Grouping.Runs | src/akeneo.ts:228-233 | The runs of the records, built record by record: a record joins the current run only when its parent field equals the run's code, and a record without the field never does, so it starts a run of its own with code `''`; it is empty iff there are no records. `Grouping.RunsArePartition` and `Grouping.RunsUnique` characterise it independently of its body |
| Grouping.Render | src/akeneo.ts:230-236 | One patch per run, so as many patches as runs; `Grouping.SentRuns` states each patch |
| Grouping.Sent | src/akeneo.ts:223-237 | Defines what the loop as written sends; `Grouping.GroupAndPatch` is proved to send it, and `SentCoverage`, `SentRuns`, `SentGuard`, `SentSingle` and `SentDropsLast` state it |
| Grouping.GroupAndPatch | src/akeneo.ts:223-237 | The loop as written sends `Sent(g, rs)`: one patch per run of all records but the last, one empty batch for a single record, nothing when the first record lacks its code |
| Grouping.RunsArePartition | src/akeneo.ts:228-233 | The runs cover the records in order; each run is non-empty, every record in it carries the run's code and each record after the first continues its predecessor; no run continues into the next (two consecutive runs may share the code `''` when their records lack the field) |
| Grouping.RunsUnique | src/akeneo.ts:228-233 | Any partition with the properties of `Grouping.RunsArePartition` is the one `Runs` computes |
| Grouping.SentCoverage | src/akeneo.ts:227-237 | The bodies sent, concatenated, are the payloads of every record but the last |
| Grouping.SentRuns | src/akeneo.ts:307-318 | Each patch carries one run of consecutive records, as `Grouping.RunsArePartition` describes runs, sent to the endpoint of the run's code |
| Grouping.VariantsSentWithoutFamily | src/akeneo.ts:308-316 | No family variant is sent with a `family` field, though its batch was chosen by it |
| Grouping.OptionsSentAsRead | src/akeneo.ts:230-236 | Attribute options are sent as read, `attribute` included |
| Grouping.SentDropsLast | src/akeneo.ts:227-237 | Records A, A, B send the one patch (A, [A, A]) |
| Grouping.SentContiguity | src/akeneo.ts:228-233 | Records A, B, A send (A, [A]) then (B, [B]); a later A opens a new batch |
| Grouping.SentKeyless | src/akeneo.ts:228-233 | Records A, M1, M2, B, where M1 and M2 lack `attribute`, send (A, [A]), ('', [M1]) and ('', [M2]): a record without the field never joins a batch, not even one opened by another such record, because `''` never equals a missing field |
| Grouping.SentSingle | src/akeneo.ts:227-233 | One record sends one empty batch to its code's endpoint |
| Grouping.SentGuard | src/akeneo.ts:223-224 | A first record without its code sends nothing |
| Grouping.IntendedSent | src/akeneo.ts:303-318 | Defines what the corrected loop sends: one patch per run of all the records, with the guard on the first record kept; `Grouping.IntendedCoverage` states it |
| Grouping.GroupAndPatchAll | src/akeneo.ts:303-318 | The corrected loop, which flushes after the last record, sends `IntendedSent`: one patch per run of all the records |
| Grouping.IntendedCoverage | src/akeneo.ts:227-237 | The corrected loop sends every record, in order |
| Grouping.SentIsIntendedOfInit | src/akeneo.ts:227-237 | The loop as written sends, for two records or more, what the corrected loop sends for all but the last |
| RoundTrip.FlatRoundTrip | src/akeneo.ts:165-179 | A flat import after an iterable export patches the listing back, whole, to the endpoint it came from, or sends nothing for an empty listing |
| RoundTrip.GroupedRoundTrip | src/akeneo.ts:293-322 | A grouped import after its root's export fails with ENOENT iff no dependent export touched the file, and otherwise groups exactly what this run appended |
| RoundTrip.VariantsRoundTripFails | src/akeneo.ts:293-300 | The variants import after a families export throws iff no family's variant listing was iterable |
| RoundTrip.LoneVariantLost | src/akeneo.ts:303-318 | One family with one variant, exported and imported, sends only an empty batch: the variant is lost |

## Left out

- Logging (`logger.*`), `main`, the shutdown timer and the entry-point check are not modelled.
- The export directory (`AKENEO_EXPORT_PATH`) and path joining are not modelled; file names are used bare.
- `close` is not modelled. Neither is the descriptor left open by the early `return err` in the cascade loops.
- File-system failures other than ENOENT are not modelled: a failing `open`, `write` or `unlink` with another code. Unlinking is modelled as always removing the file.
- `get` is a function from URL to fetch result. Pagination, retries and the HTTP client's own errors are not modelled. A rejection carries only its `code`.
- The results of `patch` are not modelled, and neither are its rejections. The imports record what they send and end `OK`.
- Records hold string-valued fields only. Numbers, booleans, nested objects and arrays are not modelled, and neither are `null`-valued fields: a field set to `null` is read as a missing one, so it is missing from every line the model writes and every body it patches back. In the source the two differ visibly in several places:
  - `JSON.stringify` writes a `null` field as `"f":null` and leaves an `undefined` one out, so the mirror line differs;
  - the body patched back differs with it; a root category's `parent: null`, for example, is sent back as `null`, which asks the service to clear the field;
  - in a URL template a `null` code prints as `null`: a family with `code: null` has its variants fetched from `/api/rest/v1/families/null/variants`, while the model's `Records.Interpolate` prints a missing code as `undefined`.
- A `null` element inside a listing is not modelled. In the source, `familyVariant.family` on a `null` variant throws a `TypeError` in the tagging loop (and likewise in the other tagging loops); the `catch` around the dependent export in the cascade loop then returns that error, leaving the root file half-written and the remaining parents unexported.
- `JSON.stringify` and `JSON.parse` are parameters with assumed properties, not implementations.
- Importer.ImportFlat: the directory holds only what the exports wrote, so `JSON.parse` only ever sees the array text of exported records. A file with a malformed or blank line, a file not written by an export, or a file whose last line lacks its line break makes `JSON.parse` throw in the source, and the import rejects (src/akeneo.ts:174, 190, 206, 252, 268, 286). That rejection is not modelled; `MirrorText.UnterminatedLastLine` shows the text-level damage only.
- Importer.ImportGrouped: likewise, the parse failure of a malformed file, which rejects the import in the source (src/akeneo.ts:222, 302), is not modelled.
- The `try`/`catch` around each dependent export in the cascade loops is not modelled. Within the modelled fetch results and record types, dependent exports return their errors and never reject, so that catch fires only on a file-system failure, the `null` element above, or the `undefined` listing below.
- A `get` that resolves to `undefined` is not modelled: `Remote.Fetch` has iterable listings, `null` or other non-iterable values, and rejections. In the source the iterability guard then throws a `TypeError` (src/akeneo.ts:346, 373, 430, 534, 564, 709, 739, 779). A flat or root export rejects. A dependent export rejects too, and the cascade catch (src/akeneo.ts:382-385, 541-543, 716-718, 751-753) returns that error, leaving the root's file half-written and the remaining parents unvisited.
- The source has no export for published products, product media files, reference-entity media files or assets (PAM): those are `TODO` comments (src/akeneo.ts:676, 678, 796, 798), and there is no export or import of reference-entity records at all. Only their URL builders exist (src/akeneo.ts:95-101, 135-163), and nothing calls them, so they are not modelled.
- Concurrency is not modelled: the code awaits every call in turn, so each export and import is a sequential method.
- Records that the source changes in place are modelled as values. This covers the parent codes filled into listed records and the `family` field deleted before sending. The listed objects are not shared with anything else, so no aliasing is lost.

## Findings

| source | as written | input that shows it | evidently intended | confidence | as-written member | corrected member |
|---|---|---|---|---|---|---|
| src/akeneo.ts:227-237 and src/akeneo.ts:307-318 | At the last record the loop flushes the batch before adding the record, and nothing is flushed after the loop. The last record is never patched, and a one-record file patches an empty batch. | Attribute options A, A, B patch only (A, [A, A]); option B is never imported | Every record is patched, in one batch per run of its parent code | not executed | Grouping.SentDropsLast | Grouping.GroupAndPatchAll |

The imports are modelled as written. `Importer.ImportGrouped` calls
`Grouping.GroupAndPatch`, so its round trip with the exports loses the
last record (`RoundTrip.LoneVariantLost`). `Grouping.GroupAndPatchAll`,
with `Grouping.IntendedCoverage`, is the corrected loop. Every record
reaches a patch there.
