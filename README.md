# Book catalogue: validators and upload pipeline

This project models the modellable core of a small Django book catalogue. A
user enters a book through a form or uploads it as a JSON document. Each book
is stored as a row of the Book table. A book saved through the form is also
mirrored to a JSON file in the `books_data` directory. The directory can be
listed, and the whole table can be exported as one JSON document.

The model has these parts:

- `Models` (`models.dfy`): the Book record. It covers the field constraints
  (title ≤ 200 characters, author ≤ 100, genre ≤ 50; title and author
  required; year and pages integers), `to_dict`, `__str__`, and Django's model
  validation (`full_clean`) and insert, as far as they act on the values the
  upload path gives them.
- `Forms` (`forms.dfy`): the fields `BookForm` edits, plus its range guards
  `clean_year` (1000..2030) and `clean_pages` (> 0).
- `Views` (`views.dfy`): the structural check `validate_book_json`, and the
  upload pipeline both as a pure verdict (`Ingest`) and as the imperative view
  `Site.UploadJson` over the directory and the table. It also holds the mirror
  writer `Site.SaveBookToJson`, the directory listing `Site.JsonFilesList` and
  the export.
- `PyText` (`pytext.dfy`): the Python string operations the code relies on.
  These are `str.isspace` character by character, `strip()`, `lower()` and
  `endswith`.
- `JsonValues` (`json.dfy`): decoded JSON values, byte contents, and the
  decoder seen as an oracle. The oracle yields a value, a `JSONDecodeError` or
  a `UnicodeDecodeError`.
- `UploadScenarios` (`scenarios.dfy`): worked uploads through the pipeline's
  verdict.

The state that the views change is one `Site` object, with these fields:

- whether `BASE_DIR/books_data` exists;
- the directory's files, as a map from name to bytes;
- the table's rows, in insertion order;
- the next key the table hands out.

`Site.Valid()` holds throughout:

- there are no files without the directory;
- keys grow with insertion order;
- every row meets the model constraints.

The central property is the cleanup discipline of the upload view:

- A rejected form or a rejected extension changes nothing.
- Every later failure removes the stored file and leaves the table unchanged.
  The later failures are: bad JSON, bad UTF-8, wrong structure, model
  validation errors, and the insert refusing a NULL.
- Only success keeps the file, and it appends exactly one row.

Three consequences of the code are worth stating plainly:

- **Year upper bound.** An uploaded year above 2030 is stored. The upload
  path never uses `BookForm`, and model validation has no calendar range, so
  a year of 2050 is saved (`UploadScenarios.Year2050IsStored`).
- **Year 999.** The structural check itself rejects a year below 1000
  (`UploadScenarios.Year999IsRejected`); it never reaches model validation.
- **Defaults of 0.** The `get(..., 0)` defaults for year and pages cannot be
  reached, because the structural check requires both keys.

Some behaviours come from Python and Django rather than from the repository,
and the model keeps them:

- **Booleans as integers.** `isinstance(True, int)` holds. So `"pages": true`
  passes as 1 and is stored as 1. A boolean year never reaches 1000.
- **Blank fields skipped.** Model validation skips blank-allowed fields that
  hold an empty value. So a `null` genre passes `full_clean`, and the NOT NULL
  insert then fails. The catch-all handler receives that failure and deletes
  the file.
- **Non-string genre or description.** Such a value is validated and stored as
  Python's `str()` of it.
- **Bad UTF-8.** A `UnicodeDecodeError` is not a `JSONDecodeError`, so the
  catch-all clause handles it.

## Model

| member | source | states |
|---|---|---|
| `PyText.Strip` | myproject3/myapp3/views.py:130-133 | `strip()` gives the empty string exactly when every character is whitespace, and a non-empty result starts and ends with a non-space |
| `PyText.StripLeft` | myproject3/myapp3/views.py:130-133 | the left strip is a suffix of the input that starts with a non-space, and everything it drops is whitespace |
| `PyText.StripRight` | myproject3/myapp3/views.py:130-133 | the right strip is a prefix of the input that ends with a non-space, and everything it drops is whitespace |
| `PyText.LowerChar` | myproject3/myapp3/views.py:57 | lowering maps an ASCII capital to its small letter, leaves every other character alone, and never yields a capital |
| `PyText.Lower` | myproject3/myapp3/views.py:57 | `lower()` keeps the length and lowers each character in place |
| `PyText.LowerIdempotent` | myproject3/myapp3/views.py:57 | lowering an already lowered name changes nothing |
| `JsonValues.PyIntValue` | myproject3/myapp3/views.py:134-137 | Python's integer view of a JSON int is the int itself; of a boolean it is 0 or 1, and 1 exactly for `true` |
| `PyText.StripNonEmptyIff` | myproject3/myapp3/views.py:130-133 | the stripped string is non-empty iff the string has a non-whitespace character |
| `Models.ToDict` | myproject3/myapp3/models.py:14-23 | `to_dict` is an object whose keys are exactly the six editable fields, and `id` is not among them |
| `Models.ToDictEntries` | myproject3/myapp3/models.py:17-22 | each key of `to_dict` holds the value of the field of that name |
| `Models.ToDictRoundTrip` | myproject3/myapp3/models.py:16-23 | reading the dictionary back gives the same Book, so the projection loses only the id |
| `Models.ToDictDeterminesFields` | myproject3/myapp3/models.py:16-23 | two Books with equal dictionaries differ at most in their id |
| `Models.Str` | myproject3/myapp3/models.py:11-12 | `__str__` is the title, then `" - "`, then the author, at exactly those positions |
| `Models.StrSeparatesAuthors` | myproject3/myapp3/models.py:11-12 | among Books with the same title, equal display strings mean equal authors, and conversely |
| `Models.RequiredTextError` | myproject3/myapp3/models.py:4-5 | a required CharField passes iff it is non-empty and within its max length; otherwise the error is blank or max-length |
| `Models.IntegerError` | myproject3/myapp3/models.py:6-7 | an IntegerField passes iff the value lies in the backend's integer range; there is no other bound |
| `Models.ToText` | myproject3/myapp3/models.py:8-9 | a text field's Python value is None only for JSON null, and a string stays itself |
| `Models.OptionalTextError` | myproject3/myapp3/models.py:8-9 | a `blank=True` field passes iff it holds an empty value, has no limit, or its text is within the limit |
| `Models.WithError` | myproject3/myapp3/views.py:95 | recording a field's error maps that field to the error and keeps every other entry; without an error the map is unchanged |
| `Models.FieldErrors` | myproject3/myapp3/models.py:4-9 | `full_clean` raises no error iff: title is non-empty and ≤ 200; author is non-empty and ≤ 100; year and pages are in the integer range; genre is empty or its text is ≤ 50. Description never fails |
| `Models.SaveRow` | myproject3/myapp3/views.py:96 | the insert fails iff genre or description is null; otherwise the row carries the candidate's values and the given key |
| `Models.ValidBookIsStored` | myproject3/myapp3/models.py:4-9 | a candidate built from a valid row's own values passes model validation and is stored as that row under any key |
| `Models.SavedRowIsModelValid` | myproject3/myapp3/models.py:4-9 | a validated and inserted candidate meets every model field constraint |
| `Models.FieldErrorsIgnoreCalendar` | myproject3/myapp3/models.py:6-7 | model validation puts no calendar range on year: a passing candidate passes with any storable year |
| `Forms.MetaFieldsAreModelFields` | myproject3/myapp3/forms.py:8 | the form covers title, author, year, pages, genre and description, in that order, and not `id` |
| `Forms.CleanYear` | myproject3/myapp3/forms.py:13-17 | returns the year unchanged iff 1000 ≤ year ≤ 2030; otherwise it raises the year error |
| `Forms.CleanPages` | myproject3/myapp3/forms.py:19-23 | returns pages unchanged iff pages > 0; from 0 downwards it raises the pages error |
| `Views.HasKeys` | myproject3/myapp3/views.py:125-127 | the required-field loop succeeds iff every listed key is present |
| `Views.HasRequiredKeys` | myproject3/myapp3/views.py:120-127 | succeeds iff title, author, year and pages are all present |
| `Views.IsNonBlankStringIff` | myproject3/myapp3/views.py:130-133 | the title/author test holds iff the value is a string with a non-space character |
| `Views.IsPlausibleYearIff` | myproject3/myapp3/views.py:134-135 | the year test holds iff the value is a JSON integer ≥ 1000; booleans never pass, and there is no upper bound |
| `Views.IsPositivePagesIff` | myproject3/myapp3/views.py:136-137 | the pages test holds iff the value is a positive JSON integer or `true` |
| `Views.ValidateBookJsonIff` | myproject3/myapp3/views.py:118-139 | `validate_book_json` is true exactly for objects with: non-space string title and author; integer year ≥ 1000; positive integer or `true` pages |
| `Views.ValidateRejectsNonObject` | myproject3/myapp3/views.py:122-123 | any value that is not an object is rejected |
| `Views.ValidateRejectsMissingKey` | myproject3/myapp3/views.py:125-127 | an object lacking one of the four required keys is rejected |
| `Views.ValidateOnlyReadsRequiredKeys` | myproject3/myapp3/views.py:120-139 | two objects that agree on the four required keys get the same verdict, so genre, description and other keys never matter |
| `Views.FormYearPassesStructuralCheck` | myproject3/myapp3/views.py:134-135 | every year that `clean_year` accepts passes the structural year test |
| `Views.StructuralYearCheckHasNoUpperBound` | myproject3/myapp3/views.py:134-135 | 2031 passes the structural year test but fails `clean_year` |
| `Views.PageChecksAgree` | myproject3/myapp3/views.py:136-137 | on integers, the structural pages test and `clean_pages` accept the same values |
| `Views.JoinPath` | myproject3/myapp3/views.py:41 | the joined path ends with the file name |
| `Views.CandidateOf` | myproject3/myapp3/views.py:87-94 | from a document that passed the check: title and author are the document's strings, each with a non-space character; year is the document's integer, at least 1000; pages is the document's integer, or 1 for `true`, and positive; genre and description are the document's values when present and `''` when absent |
| `Views.StoreDocument` | myproject3/myapp3/views.py:87-96 | after the structural check, the outcome is: the field errors when `full_clean` finds any; the NOT NULL failure when it passes but the insert refuses; otherwise exactly the inserted row |
| `Views.IngestStored` | myproject3/myapp3/views.py:70-111 | no outcome after the write is one of the rejections made before it |
| `Views.IngestStoredHandlers` | myproject3/myapp3/views.py:77-111 | a JSON syntax error, a UTF-8 decode error and a failed structural check each yield their own outcome, exactly in those cases; a document that passes goes on to validation and insert |
| `Views.IngestRejectsInvalidForm` | myproject3/myapp3/views.py:52-53 | `AcceptsUpload`, the form check, rejects an upload exactly when the file has no name or no content |
| `Views.HasJsonExtensionIff` | myproject3/myapp3/views.py:57 | `HasJsonExtension` holds exactly when the name ends in a dot followed by `j`, `s`, `o`, `n`, each in either case |
| `Views.Ingest` | myproject3/myapp3/views.py:49-116 | the pipeline rejects before storing anything iff the form is invalid or the name lacks `.json` in any case |
| `Views.IngestedBookComesFromDocument` | myproject3/myapp3/views.py:87-98 | on success the row has the given key; its title, author and year come from the document; its pages count comes from the document, with `true` stored as 1; a missing genre or description becomes `''`; the row meets the structural bounds and the model constraints |
| `Views.RequiredOnlyChecks` | myproject3/myapp3/views.py:81-94 | a document with just the four keys passes the structural check iff each field passes its test; the candidate then has empty genre and description |
| `Views.IngestStoresRequiredOnly` | myproject3/myapp3/views.py:87-98 | a valid four-key document within the model bounds is stored with exactly those values, and `''` for genre and description |
| `Views.IngestRejectsOtherExtensions` | myproject3/myapp3/views.py:57-59 | a valid form whose name does not end in `.json`, ignoring case, gets the extension error |
| `Views.JsonNames` | myproject3/myapp3/views.py:154 | the listed names are exactly the directory names that end in `.json`, case-sensitively, with no duplicates when the listing has none |
| `Views.JsonNamesOfConcat` | myproject3/myapp3/views.py:154 | the filter keeps listing order: filtering a concatenation concatenates the filtered parts |
| `Views.ReadEntry` | myproject3/myapp3/views.py:162-176 | an entry carries the file's name and byte size, and the parsed content iff the decoder parsed it; otherwise it carries the read error |
| `Views.ExportBooks` | myproject3/myapp3/views.py:185-186 | export has one element per row, and element i is `to_dict` of row i |
| `Views.Site.ExportRoundTrip` | myproject3/myapp3/views.py:183-194 | decoding `ExportBooksJson`, the exported document, gives one object per table row, each reading back as that row |
| `Views.UploadAndMirrorNamesDiffer` | myproject3/myapp3/views.py:40 | a stored upload name never equals a mirror file name |
| `Views.GeneratedNamesAreJson` | myproject3/myapp3/views.py:62 | both generated names end in `.json`, so the listing shows them and the extension check accepts them |
| `Views.LowerKeepsJsonSuffix` | myproject3/myapp3/views.py:57 | any name ending in `.json` passes the case-insensitive extension test |
| `Views.ToDictPassesStructuralCheck` | myproject3/myapp3/views.py:118-139 | the dictionary of a Book within the structural bounds passes the check, and the pipeline rebuilds the same fields from it |
| `Views.ToDictStores` | myproject3/myapp3/views.py:81-96 | the dictionary of a valid Book within the structural bounds passes the check and is stored as that Book |
| `Views.MirrorFileReingests` | myproject3/myapp3/views.py:49-98 | uploading a mirror file of a Book within the bounds stores the same Book under the new key |
| `Views.Site.MakeBooksDir` | myproject3/myapp3/views.py:65-66 | the directory exists afterwards, and files and table are unchanged |
| `Views.Site.WriteFile` | myproject3/myapp3/views.py:72-74 | the named file holds the bytes, replacing a file of that name; nothing else changes |
| `Views.Site.RemoveFile` | myproject3/myapp3/views.py:82 | the named file is gone; nothing else changes |
| `Views.Site.SaveCandidate` | myproject3/myapp3/views.py:96 | the insert appends the row with the next key, or fails and changes nothing |
| `Views.Site.ProcessStoredUpload` | myproject3/myapp3/views.py:70-111 | every failure after the write removes the stored file and leaves the table unchanged; success keeps the file and appends exactly one row |
| `Views.Site.UploadJson` | myproject3/myapp3/views.py:49-116 | the result is the pipeline verdict. Form and extension rejections change nothing. Later failures remove the stored file, which leaves the files unchanged when the name was fresh. Success keeps the file and appends exactly the resulting row. The invariant is preserved |
| `Views.Site.SaveBookToJson` | myproject3/myapp3/views.py:31-47 | creates the directory, writes `to_dict` to `book_<hex>.json` and returns its joined path; the table is unchanged. With a fresh name, exactly one file is added and no other file changes |
| `Views.Site.JsonFilesList` | myproject3/myapp3/views.py:146-181 | the message is "missing directory", "no JSON files" or none, according to the directory; for each `.json` name, in listing order, the entry is that file's row |
| `UploadScenarios.DuneIsStored` | myproject3/myapp3/views.py:87-98 | `book.json` with Dune, Frank Herbert, 1965, 412 is stored with empty genre and description |
| `UploadScenarios.UpperCaseExtensionPasses` | myproject3/myapp3/views.py:57 | `BOOK.JSON` passes the extension test |
| `UploadScenarios.TextFileIsRejected` | myproject3/myapp3/views.py:57-59 | `notes.txt` gets the extension error |
| `UploadScenarios.MissingPagesIsRejected` | myproject3/myapp3/views.py:125-127 | a document without pages gets the structural error |
| `UploadScenarios.Year2050IsStored` | myproject3/myapp3/views.py:134-135 | a document with year 2050 is stored |
| `UploadScenarios.Year999IsRejected` | myproject3/myapp3/views.py:134-135 | a document with year 999 gets the structural error |
| `UploadScenarios.PagesTrueIsStoredAsOne` | myproject3/myapp3/views.py:136-137 | `"pages": true` is stored as 1 |

## Left out

- HTTP and templating are left out: `render`, `redirect`, the form error messages (modelled as tags), the GET branches, the `home`, `book_form` and `book_list` request handling, and the response headers of the export. They are framework plumbing.
- `myproject3/myapp3/urls.py` is left out: it is a route table with no logic.
- The `BookForm` path as a whole is left out: form field parsing and whitespace stripping, then `form.save()`. Only `clean_year`, `clean_pages` and `Meta.fields` are modelled.
- JSON text parsing and serialisation (`json.load`, `json.dump`, `json.dumps`, `ensure_ascii`, `indent`) are library calls. They appear as the oracles `load` and `dump`. The export round trip assumes only that `load` reads back what `dump` wrote.
- Dictionary key order is left out. JSON objects are maps, so the key order of mirror and export files is not modelled.
- Floating-point values keep their literal text, because no arithmetic is done on them.
- Python's `str()` of a non-string genre or description is the oracle `pyStr`. The exceptions are the empty list and the empty dict, which give `"[]"` and `"{}"`.
- `PyText.Lower` maps only ASCII letters. Python's full Unicode lowercasing is not modelled.
- `uuid4` randomness is left out. The eight hex digits are a parameter, and the code has no collision check. A write to an existing name replaces that file, and a failure then removes it; the contracts state this case too.
- Filesystem faults are left out: a failing write or removal, a race on directory creation, and writing in chunks. A file is written as a whole.
- A subdirectory named `*.json` inside `books_data` is left out; the model's directory holds files only.
- `os.listdir` order is unspecified, so the listing is a parameter that must enumerate the directory's files exactly once.
- `os.path.getsize` is the byte length of the file's content.
- `Views.JoinPath`: it states only that the path ends with the file name. `settings.BASE_DIR` is an opaque string field of `Site`.
- Only two unexpected exceptions from the catch-all clause are modelled: the UTF-8 decode error and the NOT NULL insert failure. Others, such as a database I/O error, are left out.
- Models.IntegerError: the integer range is the 64-bit range of Django's SQLite backend. Other backends or Django versions use other ranges.
- `full_clean` is modelled through `clean_fields`. `validate_unique` and `validate_constraints` have nothing to check on this model.
- The export uses insertion order for `Book.objects.all()`, which has no declared ordering.
