/**
 * The catalogue's views with their logic and none of their HTTP plumbing:
 * the structural check of an uploaded book document, the upload pipeline
 * with its cleanup discipline, the JSON mirror writer, the listing of the
 * mirror directory and the export of the whole table.
 *
 * The state the views touch is one `Site`: the `books_data` directory under
 * the project's base directory (whether it exists, and its files by name)
 * and the Book table (its rows in insertion order and the next key).
 */
module Views {
  import opened Wrappers
  import opened PyText
  import opened JsonValues
  import opened Models
  import Forms

  // ---------------------------------------------------------------------------
  // Structural validation of a decoded document.
  // ---------------------------------------------------------------------------

  /** The keys an uploaded document must have, in the order they are checked. */
  const RequiredFields: seq<string> := ["title", "author", "year", "pages"]

  /** The lowest year the structural check admits; it sets no upper bound. */
  const MinStructuralYear: int := 1000

  /** The loop over the required fields: every key of `keys` is present. */
  function HasKeys(fields: map<string, Json>, keys: seq<string>): (r: bool)
    ensures r <==> forall i :: 0 <= i < |keys| ==> keys[i] in fields
  {
    keys == [] || (keys[0] in fields && HasKeys(fields, keys[1..]))
  }

  /** The four required keys are all present. */
  function HasRequiredKeys(fields: map<string, Json>): (r: bool)
    ensures r <==> "title" in fields && "author" in fields && "year" in fields && "pages" in fields
  {
    assert RequiredFields[0] == "title" && RequiredFields[1] == "author";
    assert RequiredFields[2] == "year" && RequiredFields[3] == "pages";
    HasKeys(fields, RequiredFields)
  }

  /** `isinstance(v, str) and v.strip()`. */
  predicate IsNonBlankString(v: Json) {
    v.JString? && Strip(v.s) != ""
  }

  /** `isinstance(v, int) and not v < 1000`. */
  predicate IsPlausibleYear(v: Json) {
    IsPyInt(v) && PyIntValue(v) >= MinStructuralYear
  }

  /** `isinstance(v, int) and not v <= 0`. */
  predicate IsPositivePages(v: Json) {
    IsPyInt(v) && PyIntValue(v) > 0
  }

  /** `validate_book_json`: the shape an uploaded document must have before it is trusted. */
  predicate ValidateBookJson(data: Json) {
    if !data.JObject? then false
    else if !HasRequiredKeys(data.fields) then false
    else
      && IsNonBlankString(data.fields["title"])
      && IsNonBlankString(data.fields["author"])
      && IsPlausibleYear(data.fields["year"])
      && IsPositivePages(data.fields["pages"])
  }

  /** A non-blank string is a string with a non-space character. */
  lemma IsNonBlankStringIff(v: Json)
    ensures IsNonBlankString(v) <==> v.JString? && HasNonSpace(v.s)
  {
    if v.JString? {
      StripNonEmptyIff(v.s);
    }
  }

  /** A boolean is an int to Python but never reaches 1000: only a JSON integer passes the year check. */
  lemma IsPlausibleYearIff(v: Json)
    ensures IsPlausibleYear(v) <==> v.JInt? && v.i >= 1000
  {
  }

  /** The page check admits a positive JSON integer or `true`, which Python counts as 1. */
  lemma IsPositivePagesIff(v: Json)
    ensures IsPositivePages(v) <==> v == JBool(true) || (v.JInt? && v.i > 0)
  {
  }

  /**
   * What the check accepts, stated without `strip` or Python's integer
   * rules: an object whose title and author are strings with a non-space
   * character, whose year is a JSON integer of at least 1000, and whose
   * pages is a positive JSON integer or `true`.
   */
  lemma ValidateBookJsonIff(data: Json)
    ensures ValidateBookJson(data) <==>
      && data.JObject?
      && var f := data.fields;
      && "title" in f && f["title"].JString? && HasNonSpace(f["title"].s)
      && "author" in f && f["author"].JString? && HasNonSpace(f["author"].s)
      && "year" in f && f["year"].JInt? && f["year"].i >= 1000
      && "pages" in f && (f["pages"] == JBool(true) || (f["pages"].JInt? && f["pages"].i > 0))
  {
    if data.JObject? && HasRequiredKeys(data.fields) {
      var f := data.fields;
      IsNonBlankStringIff(f["title"]);
      IsNonBlankStringIff(f["author"]);
      IsPlausibleYearIff(f["year"]);
      IsPositivePagesIff(f["pages"]);
    }
  }

  /** Anything but an object is rejected. */
  lemma ValidateRejectsNonObject(data: Json)
    requires !data.JObject?
    ensures !ValidateBookJson(data)
  {
  }

  /** An object lacking one of the required keys is rejected. */
  lemma ValidateRejectsMissingKey(fields: map<string, Json>, key: string)
    requires key in RequiredFields && key !in fields
    ensures !ValidateBookJson(JObject(fields))
  {
  }

  /** `f` and `g` agree on `key`: both lack it or both map it to one value. */
  predicate AgreeOn(f: map<string, Json>, g: map<string, Json>, key: string) {
    (key in f <==> key in g) && (key in f ==> f[key] == g[key])
  }

  /** Keys other than the four required ones (genre, description, anything) never change the verdict. */
  lemma ValidateOnlyReadsRequiredKeys(f: map<string, Json>, g: map<string, Json>)
    requires forall key :: key in RequiredFields ==> AgreeOn(f, g, key)
    ensures ValidateBookJson(JObject(f)) == ValidateBookJson(JObject(g))
  {
    assert AgreeOn(f, g, "title") && AgreeOn(f, g, "author");
    assert AgreeOn(f, g, "year") && AgreeOn(f, g, "pages");
  }

  /** Every year `clean_year` accepts passes the structural year check. */
  lemma FormYearPassesStructuralCheck(year: int)
    requires Forms.CleanYear(year).Ok?
    ensures IsPlausibleYear(JInt(year))
  {
  }

  /** The converse fails: 2031 passes the structural check and not the form. */
  lemma StructuralYearCheckHasNoUpperBound()
    ensures IsPlausibleYear(JInt(2031)) && Forms.CleanYear(2031).Err?
  {
  }

  /** On integers, the structural page check and `clean_pages` accept the same values. */
  lemma PageChecksAgree(pages: int)
    ensures IsPositivePages(JInt(pages)) <==> Forms.CleanPages(pages).Ok?
  {
  }

  // ---------------------------------------------------------------------------
  // The upload pipeline, as a function of its inputs.
  // ---------------------------------------------------------------------------

  /** The name of the mirror directory under the base directory. */
  const BooksDir: string := "books_data"

  /** An uploaded file: the name the client gave it and its bytes. */
  datatype Upload = Upload(name: string, content: Bytes)

  /** The unexpected exceptions the pipeline's catch-all clause turns into an error. */
  datatype Fault =
    | NotUtf8          // UnicodeDecodeError while reading the stored file as text
    | NotNullViolated  // the insert refuses a None genre or description

  /** Why an upload was rejected; each tag stands for one error message on the form. */
  datatype UploadError =
    | FormInvalid                                      // no file name, or an empty file
    | InvalidExtension                                 // name does not end in .json
    | InvalidJson                                      // json.JSONDecodeError
    | InvalidStructure                                 // validate_book_json said no
    | ValidationFailed(errors: map<FieldName, ErrorCode>)  // full_clean raised
    | ProcessingFailed(fault: Fault)                   // any other exception

  /** The two rejections that happen before anything is written. */
  predicate RejectedBeforeWrite(e: UploadError) {
    e.FormInvalid? || e.InvalidExtension?
  }

  /** The eight characters `uuid4().hex[:8]` yields. */
  predicate IsHex8(h: string) {
    |h| == 8 && forall i :: 0 <= i < |h| ==> h[i] in "0123456789abcdef"
  }

  /** The name an upload is stored under. */
  function UploadName(hex8: string): string {
    "uploaded_" + hex8 + ".json"
  }

  /** The name a mirror file is written under. */
  function MirrorName(hex8: string): string {
    "book_" + hex8 + ".json"
  }

  /** `os.path.join(a, b)` on POSIX paths. */
  function JoinPath(a: string, b: string): (r: string)
    ensures EndsWith(r, b)
  {
    if |b| > 0 && b[0] == '/' then b
    else if a == "" || EndsWith(a, "/") then a + b
    else a + "/" + b
  }

  /** `JSONUploadForm.is_valid()`: a file with a name and at least one byte. */
  predicate AcceptsUpload(u: Upload) {
    u.name != "" && |u.content| > 0
  }

  /** `name.lower().endswith('.json')`. */
  predicate HasJsonExtension(name: string) {
    EndsWith(Lower(name), ".json")
  }

  /**
   * The extension test ignores ASCII case: the name ends in a dot followed
   * by `j`, `s`, `o` and `n`, each in either case.
   */
  lemma HasJsonExtensionIff(name: string)
    ensures HasJsonExtension(name) <==>
      && |name| >= 5
      && name[|name| - 5] == '.'
      && name[|name| - 4] in {'j', 'J'}
      && name[|name| - 3] in {'s', 'S'}
      && name[|name| - 2] in {'o', 'O'}
      && name[|name| - 1] in {'n', 'N'}
  {
    var l := Lower(name);
    var n := |name|;
    if n >= 5 {
      assert l[n - 5..] == ".json" <==>
        l[n - 5] == '.' && l[n - 4] == 'j' && l[n - 3] == 's' && l[n - 2] == 'o' && l[n - 1] == 'n';
    }
  }

  /** `dict.get(key, default)`. */
  function Get(fields: map<string, Json>, key: string, default: Json): Json {
    if key in fields then fields[key] else default
  }

  /** The Book the pipeline constructs from a document that passed the structural check. */
  function CandidateOf(data: Json): (c: Candidate)
    requires ValidateBookJson(data)
    ensures data.JObject?
    ensures data.fields["title"] == JString(c.title) && HasNonSpace(c.title)
    ensures data.fields["author"] == JString(c.author) && HasNonSpace(c.author)
    ensures data.fields["year"] == JInt(c.year) && c.year >= 1000
    ensures data.fields["pages"] == JInt(c.pages) || (data.fields["pages"] == JBool(true) && c.pages == 1)
    ensures c.pages > 0
    ensures "genre" in data.fields ==> c.genre == data.fields["genre"]
    ensures "genre" !in data.fields ==> c.genre == JString("")
    ensures "description" in data.fields ==> c.description == data.fields["description"]
    ensures "description" !in data.fields ==> c.description == JString("")
  {
    ValidateBookJsonIff(data);
    Candidate(
      data.fields["title"].s,
      data.fields["author"].s,
      PyIntValue(data.fields["year"]),
      PyIntValue(data.fields["pages"]),
      Get(data.fields, "genre", JString("")),
      Get(data.fields, "description", JString("")))
  }

  /**
   * Model validation and insert of a document that passed the structural
   * check: the row stored under key `id`, the field errors, or the NOT NULL
   * failure of the insert.
   */
  function StoreDocument(data: Json, pyStr: Json -> string, id: nat): (r: Result<Book, UploadError>)
    requires ValidateBookJson(data)
    ensures r.Err? ==> r.error.ValidationFailed? || r.error == ProcessingFailed(NotNullViolated)
    ensures r.Err? && r.error.ValidationFailed? ==>
      r.error.errors == FieldErrors(CandidateOf(data), pyStr) && r.error.errors != map[]
    ensures r == Err(ProcessingFailed(NotNullViolated)) <==>
      FieldErrors(CandidateOf(data), pyStr) == map[] && SaveRow(CandidateOf(data), pyStr, id).None?
    ensures r.Ok? <==>
      FieldErrors(CandidateOf(data), pyStr) == map[] && SaveRow(CandidateOf(data), pyStr, id).Some?
    ensures r.Ok? ==> Some(r.value) == SaveRow(CandidateOf(data), pyStr, id)
  {
    var candidate := CandidateOf(data);
    var errors := FieldErrors(candidate, pyStr);
    if errors != map[] then Err(ValidationFailed(errors))
    else match SaveRow(candidate, pyStr, id)
      case None => Err(ProcessingFailed(NotNullViolated))
      case Some(row) => Ok(row)
  }

  /**
   * The verdict of the stages after the bytes are stored, and the row they
   * would insert under key `id`: decode, structural check, model
   * validation, insert. None of the outcomes is a rejection made before
   * the write. `load` is the JSON decoder, `pyStr` Python's `str` as model
   * validation applies it.
   */
  function IngestStored(content: Bytes, load: Bytes -> Decoded, pyStr: Json -> string, id: nat): (r: Result<Book, UploadError>)
    ensures r.Err? ==> !RejectedBeforeWrite(r.error)
  {
    var decoded := load(content);
    if decoded.SyntaxError? then Err(InvalidJson)
    else if decoded.EncodingError? then Err(ProcessingFailed(NotUtf8))
    else if !ValidateBookJson(decoded.value) then Err(InvalidStructure)
    else StoreDocument(decoded.value, pyStr, id)
  }

  /**
   * Each exception after the write lands in its own handler: a syntax
   * error, a decode error and a failed structural check each have their
   * own outcome, and a document that passes the check goes on to model
   * validation and the insert.
   */
  lemma IngestStoredHandlers(content: Bytes, load: Bytes -> Decoded, pyStr: Json -> string, id: nat)
    ensures var r := IngestStored(content, load, pyStr, id);
      && (r == Err(InvalidJson) <==> load(content).SyntaxError?)
      && (r == Err(ProcessingFailed(NotUtf8)) <==> load(content).EncodingError?)
      && (r == Err(InvalidStructure) <==> load(content).Parsed? && !ValidateBookJson(load(content).value))
      && (load(content).Parsed? && ValidateBookJson(load(content).value) ==>
            r == StoreDocument(load(content).value, pyStr, id))
  {
    var d := load(content);
    if d.Parsed? && ValidateBookJson(d.value) {
      var r := StoreDocument(d.value, pyStr, id);
      assert r.Err? ==> r.error.ValidationFailed? || r.error == ProcessingFailed(NotNullViolated);
    }
  }

  /** The verdict of the upload pipeline on one upload: the form and extension checks, then the stored stages. */
  function Ingest(u: Upload, load: Bytes -> Decoded, pyStr: Json -> string, id: nat): (r: Result<Book, UploadError>)
    ensures r.Err? && RejectedBeforeWrite(r.error) <==> !AcceptsUpload(u) || !HasJsonExtension(u.name)
  {
    if !AcceptsUpload(u) then Err(FormInvalid)
    else if !HasJsonExtension(u.name) then Err(InvalidExtension)
    else IngestStored(u.content, load, pyStr, id)
  }

  /**
   * An accepted upload yields a row whose fields come from the document:
   * title and author verbatim, year and pages as Python reads them, a
   * missing genre or description as the empty string, and the row meets
   * both the structural bounds and the model's constraints.
   */
  lemma IngestedBookComesFromDocument(u: Upload, load: Bytes -> Decoded, pyStr: Json -> string, id: nat)
    requires Ingest(u, load, pyStr, id).Ok?
    ensures load(u.content).Parsed? && load(u.content).value.JObject?
    ensures
      var b := Ingest(u, load, pyStr, id).value;
      var f := load(u.content).value.fields;
      && b.id == id
      && "title" in f && f["title"] == JString(b.title) && HasNonSpace(b.title)
      && "author" in f && f["author"] == JString(b.author) && HasNonSpace(b.author)
      && "year" in f && f["year"] == JInt(b.year) && b.year >= 1000
      && "pages" in f && (f["pages"] == JInt(b.pages) || (f["pages"] == JBool(true) && b.pages == 1))
      && b.pages > 0
      && ("genre" !in f ==> b.genre == "")
      && ("genre" in f && f["genre"].JString? ==> b.genre == f["genre"].s)
      && ("description" !in f ==> b.description == "")
      && ("description" in f && f["description"].JString? ==> b.description == f["description"].s)
      && ModelValid(b)
  {
    var data := load(u.content).value;
    ValidateBookJsonIff(data);
    SavedRowIsModelValid(CandidateOf(data), pyStr, id);
  }

  /** A document holding the four required keys and nothing else. */
  function RequiredOnly(title: string, author: string, year: Json, pages: Json): Json {
    JObject(map["title" := JString(title), "author" := JString(author), "year" := year, "pages" := pages])
  }

  /** The structural check on a document of the required keys alone, and the candidate built from it. */
  lemma RequiredOnlyChecks(title: string, author: string, year: Json, pages: Json)
    ensures ValidateBookJson(RequiredOnly(title, author, year, pages)) <==>
      HasNonSpace(title) && HasNonSpace(author) && IsPlausibleYear(year) && IsPositivePages(pages)
    ensures ValidateBookJson(RequiredOnly(title, author, year, pages)) ==>
      CandidateOf(RequiredOnly(title, author, year, pages)) ==
        Candidate(title, author, PyIntValue(year), PyIntValue(pages), JString(""), JString(""))
  {
    var f := RequiredOnly(title, author, year, pages).fields;
    assert f["title"] == JString(title) && f["author"] == JString(author);
    assert f["year"] == year && f["pages"] == pages;
    assert "genre" !in f && "description" !in f;
    IsNonBlankStringIff(JString(title));
    IsNonBlankStringIff(JString(author));
  }

  /**
   * Conversely, an upload of a document with just the required keys, each
   * within the structural and model bounds, is stored with exactly those
   * values and an empty genre and description.
   */
  lemma IngestStoresRequiredOnly(u: Upload, load: Bytes -> Decoded, pyStr: Json -> string, id: nat,
                                 title: string, author: string, year: Json, pages: Json)
    requires AcceptsUpload(u) && HasJsonExtension(u.name)
    requires load(u.content) == Parsed(RequiredOnly(title, author, year, pages))
    requires HasNonSpace(title) && |title| <= TitleMaxLength
    requires HasNonSpace(author) && |author| <= AuthorMaxLength
    requires IsPlausibleYear(year) && PyIntValue(year) <= IntFieldMax
    requires IsPositivePages(pages) && PyIntValue(pages) <= IntFieldMax
    ensures Ingest(u, load, pyStr, id) ==
      Ok(Book(id, title, author, PyIntValue(year), PyIntValue(pages), "", ""))
  {
    var data := RequiredOnly(title, author, year, pages);
    var b := Book(id, title, author, PyIntValue(year), PyIntValue(pages), "", "");
    RequiredOnlyChecks(title, author, year, pages);
    ValidBookIsStored(b, pyStr, id);
    assert StoreDocument(data, pyStr, id) == Ok(b);
    IngestStoredHandlers(u.content, load, pyStr, id);
  }

  /** The form rejects an upload exactly when the file has no name or no content. */
  lemma IngestRejectsInvalidForm(u: Upload, load: Bytes -> Decoded, pyStr: Json -> string, id: nat)
    ensures Ingest(u, load, pyStr, id) == Err(FormInvalid) <==> u.name == "" || u.content == []
  {
  }

  /** A file whose name does not end in `.json`, in any case, is rejected before it is stored. */
  lemma IngestRejectsOtherExtensions(u: Upload, load: Bytes -> Decoded, pyStr: Json -> string, id: nat)
    requires AcceptsUpload(u) && !HasJsonExtension(u.name)
    ensures Ingest(u, load, pyStr, id) == Err(InvalidExtension)
  {
  }

  // ---------------------------------------------------------------------------
  // Listing and export.
  // ---------------------------------------------------------------------------

  predicate Distinct(names: seq<string>) {
    forall i, j :: 0 <= i < j < |names| ==> names[i] != names[j]
  }

  /** `[f for f in listing if f.endswith('.json')]`: case-sensitive, in listing order. */
  function JsonNames(listing: seq<string>): (r: seq<string>)
    ensures |r| <= |listing|
    ensures forall n :: n in r <==> n in listing && EndsWith(n, ".json")
    ensures Distinct(listing) ==> Distinct(r)
  {
    if listing == [] then []
    else if EndsWith(listing[0], ".json") then [listing[0]] + JsonNames(listing[1..])
    else JsonNames(listing[1..])
  }

  /** The filter keeps listing order: filtering a concatenation concatenates the filtered parts. */
  lemma {:induction false} JsonNamesOfConcat(a: seq<string>, b: seq<string>)
    ensures JsonNames(a + b) == JsonNames(a) + JsonNames(b)
  {
    if a != [] {
      var rest := a[1..];
      assert a + b == [a[0]] + (rest + b);
      assert (a + b)[0] == a[0] && (a + b)[1..] == rest + b;
      JsonNamesOfConcat(rest, b);
      if EndsWith(a[0], ".json") {
        assert JsonNames(a + b) == [a[0]] + JsonNames(rest + b);
        assert JsonNames(a) == [a[0]] + JsonNames(rest);
      } else {
        assert JsonNames(a + b) == JsonNames(rest + b);
        assert JsonNames(a) == JsonNames(rest);
      }
    } else {
      assert a + b == b;
    }
  }

  /** Why a listed file could not be read; both are reported, not raised. */
  datatype ReadFault = JsonSyntax | Utf8Decode

  /** One row of the listing: the name, the parsed content or the read error, and the size in bytes. */
  datatype FileEntry = FileEntry(filename: string, content: Result<Json, ReadFault>, size: nat)

  /** The note shown above the listing. */
  datatype ListMessage = MissingDirectory | NoJsonFiles | NoMessage

  /** The listing row of one file. */
  function ReadEntry(name: string, bytes: Bytes, load: Bytes -> Decoded): (e: FileEntry)
    ensures e.filename == name && e.size == |bytes|
    ensures e.content.Ok? <==> load(bytes).Parsed?
    ensures e.content.Ok? ==> e.content.value == load(bytes).value
  {
    var content := match load(bytes)
      case Parsed(v) => Ok(v)
      case SyntaxError => Err(JsonSyntax)
      case EncodingError => Err(Utf8Decode);
    FileEntry(name, content, |bytes|)
  }

  /** The export list: `to_dict` of every row, in table order. */
  function ExportBooks(books: seq<Book>): (r: seq<Json>)
    ensures |r| == |books|
    ensures forall i :: 0 <= i < |books| ==> r[i] == ToDict(books[i])
  {
    if books == [] then [] else [ToDict(books[0])] + ExportBooks(books[1..])
  }

  /** Stored uploads and mirror files never share a name. */
  lemma UploadAndMirrorNamesDiffer(h1: string, h2: string)
    ensures UploadName(h1) != MirrorName(h2)
  {
    assert UploadName(h1)[0] == 'u' && MirrorName(h2)[0] == 'b';
  }

  /** Both generated names end in `.json`, so the listing shows them and the upload accepts them. */
  lemma GeneratedNamesAreJson(hex8: string)
    ensures EndsWith(UploadName(hex8), ".json") && HasJsonExtension(UploadName(hex8))
    ensures EndsWith(MirrorName(hex8), ".json") && HasJsonExtension(MirrorName(hex8))
  {
    LowerKeepsJsonSuffix("uploaded_" + hex8);
    LowerKeepsJsonSuffix("book_" + hex8);
  }

  /** Any name that ends in lower-case `.json` passes the extension test. */
  lemma LowerKeepsJsonSuffix(stem: string)
    ensures HasJsonExtension(stem + ".json")
  {
    var s := stem + ".json";
    var n := |s|;
    assert s[n - 5..] == ".json";
    assert s[n - 5] == '.' && s[n - 4] == 'j' && s[n - 3] == 's' && s[n - 2] == 'o' && s[n - 1] == 'n';
    HasJsonExtensionIff(s);
  }

  /**
   * The dictionary of a Book that meets the structural bounds passes the
   * structural check, and the pipeline rebuilds the same fields from it.
   */
  lemma ToDictPassesStructuralCheck(b: Book)
    requires HasNonSpace(b.title) && HasNonSpace(b.author)
    requires b.year >= 1000 && b.pages > 0
    ensures ValidateBookJson(ToDict(b))
    ensures CandidateOf(ToDict(b)) ==
      Candidate(b.title, b.author, b.year, b.pages, JString(b.genre), JString(b.description))
  {
    ToDictEntries(b);
    ValidateBookJsonIff(ToDict(b));
  }

  /**
   * A mirror file of a Book that passes the structural bounds, uploaded
   * again, is accepted and yields the same Book under the new key.
   */
  lemma MirrorFileReingests(b: Book, hex8: string, dump: Json -> Bytes, load: Bytes -> Decoded, pyStr: Json -> string, id: nat)
    requires load(dump(ToDict(b))) == Parsed(ToDict(b)) && |dump(ToDict(b))| > 0
    requires ModelValid(b) && HasNonSpace(b.title) && HasNonSpace(b.author)
    requires b.year >= 1000 && b.pages > 0
    ensures Ingest(Upload(MirrorName(hex8), dump(ToDict(b))), load, pyStr, id) == Ok(b.(id := id))
  {
    GeneratedNamesAreJson(hex8);
    ToDictStores(b, pyStr, id);
    var u := Upload(MirrorName(hex8), dump(ToDict(b)));
    assert AcceptsUpload(u) && HasJsonExtension(u.name);
    assert IngestStored(u.content, load, pyStr, id) == Ok(b.(id := id));
  }

  /** Model validation and insert of the dictionary of a valid Book store that Book. */
  lemma ToDictStores(b: Book, pyStr: Json -> string, id: nat)
    requires ModelValid(b) && HasNonSpace(b.title) && HasNonSpace(b.author)
    requires b.year >= 1000 && b.pages > 0
    ensures ValidateBookJson(ToDict(b))
    ensures StoreDocument(ToDict(b), pyStr, id) == Ok(b.(id := id))
  {
    ToDictPassesStructuralCheck(b);
    ValidBookIsStored(b, pyStr, id);
  }

  // ---------------------------------------------------------------------------
  // The stateful views.
  // ---------------------------------------------------------------------------

  class Site {
    /** `settings.BASE_DIR`. */
    const baseDir: string
    /** Whether `BASE_DIR/books_data` exists. */
    var dirExists: bool
    /** The files of `BASE_DIR/books_data`, by name. */
    var files: map<string, Bytes>
    /** The rows of the Book table, in insertion order. */
    var books: seq<Book>
    /** The key the table gives the next row. */
    var nextId: nat

    /**
     * No files without the directory; keys are below `nextId` and increase
     * with insertion order, so no two rows share one; and every row meets
     * the model's field constraints.
     */
    ghost predicate Valid()
      reads this
    {
      && (!dirExists ==> files == map[])
      && (forall i :: 0 <= i < |books| ==> books[i].id < nextId && ModelValid(books[i]))
      && (forall i, j :: 0 <= i < j < |books| ==> books[i].id < books[j].id)
    }

    /** A fresh site: no directory, an empty table whose first key is 1. */
    constructor (baseDir: string)
      ensures Valid()
      ensures this.baseDir == baseDir
      ensures !dirExists && files == map[] && books == [] && nextId == 1
    {
      this.baseDir := baseDir;
      dirExists := false;
      files := map[];
      books := [];
      nextId := 1;
    }

    /** `os.makedirs(books_dir)` when the directory is absent. */
    method MakeBooksDir()
      requires Valid()
      modifies this
      ensures Valid() && dirExists
      ensures files == old(files) && books == old(books) && nextId == old(nextId)
    {
      if !dirExists {
        dirExists := true;
      }
    }

    /** Writing a file of the directory, replacing one of the same name. */
    method WriteFile(name: string, content: Bytes)
      requires Valid() && dirExists
      modifies this
      ensures Valid() && dirExists
      ensures files == old(files)[name := content]
      ensures books == old(books) && nextId == old(nextId)
    {
      files := files[name := content];
    }

    /** `os.remove` of a file of the directory. */
    method RemoveFile(name: string)
      requires Valid() && dirExists
      modifies this
      ensures Valid() && dirExists
      ensures files == old(files) - {name}
      ensures books == old(books) && nextId == old(nextId)
    {
      files := files - {name};
    }

    /**
     * `book.save()` of a validated candidate: the insert gives the row the
     * next key, or fails on a None genre or description and changes nothing.
     */
    method SaveCandidate(c: Candidate, pyStr: Json -> string) returns (row: Option<Book>)
      requires Valid() && FieldErrors(c, pyStr) == map[]
      modifies this
      ensures Valid()
      ensures row == SaveRow(c, pyStr, old(nextId))
      ensures dirExists == old(dirExists) && files == old(files)
      ensures row.Some? ==> books == old(books) + [row.value] && nextId == old(nextId) + 1
      ensures row.None? ==> books == old(books) && nextId == old(nextId)
    {
      row := SaveRow(c, pyStr, nextId);
      if row.Some? {
        SavedRowIsModelValid(c, pyStr, nextId);
        books := books + [row.value];
        nextId := nextId + 1;
      }
    }

    /**
     * The `try` block of `upload_json` with its handlers, on the file just
     * stored under `name`: every failure removes that file and leaves the
     * table alone; success keeps it and appends one row.
     */
    method ProcessStoredUpload(name: string, load: Bytes -> Decoded, pyStr: Json -> string)
      returns (outcome: Result<Book, UploadError>)
      requires Valid() && dirExists && name in files
      modifies this
      ensures Valid() && dirExists
      ensures outcome == IngestStored(old(files[name]), load, pyStr, old(nextId))
      ensures outcome.Err? ==> files == old(files) - {name} && books == old(books) && nextId == old(nextId)
      ensures outcome.Ok? ==> files == old(files) && books == old(books) + [outcome.value] && nextId == old(nextId) + 1
    {
      var decoded := load(files[name]);
      if decoded.SyntaxError? {
        RemoveFile(name);
        return Err(InvalidJson);
      }
      if decoded.EncodingError? {
        RemoveFile(name);
        return Err(ProcessingFailed(NotUtf8));
      }
      var data := decoded.value;
      if !ValidateBookJson(data) {
        RemoveFile(name);
        return Err(InvalidStructure);
      }

      var candidate := CandidateOf(data);
      var errors := FieldErrors(candidate, pyStr);
      if errors != map[] {
        RemoveFile(name);
        return Err(ValidationFailed(errors));
      }
      var row := SaveCandidate(candidate, pyStr);
      if row.None? {
        RemoveFile(name);
        return Err(ProcessingFailed(NotNullViolated));
      }
      return Ok(row.value);
    }

    /**
     * `upload_json` on a POST with a file. Rejections of the form or the
     * extension touch nothing. Otherwise the directory is created if needed
     * and the bytes are stored under `uploaded_<hex8>.json`; every later
     * failure removes that file again and leaves the table as it was, and
     * only success keeps the file and appends exactly one row.
     */
    method UploadJson(u: Upload, hex8: string, load: Bytes -> Decoded, pyStr: Json -> string)
      returns (outcome: Result<Book, UploadError>)
      requires Valid()
      requires IsHex8(hex8)
      modifies this
      ensures Valid()
      ensures outcome == Ingest(u, load, pyStr, old(nextId))
      ensures outcome.Err? && RejectedBeforeWrite(outcome.error) ==>
        && dirExists == old(dirExists) && files == old(files)
        && books == old(books) && nextId == old(nextId)
      ensures outcome.Err? && !RejectedBeforeWrite(outcome.error) ==>
        && dirExists && files == old(files) - {UploadName(hex8)}
        && books == old(books) && nextId == old(nextId)
      ensures outcome.Err? && UploadName(hex8) !in old(files) ==> files == old(files)
      ensures outcome.Ok? ==>
        && dirExists && files == old(files)[UploadName(hex8) := u.content]
        && books == old(books) + [outcome.value] && nextId == old(nextId) + 1
    {
      if !AcceptsUpload(u) {
        return Err(FormInvalid);
      }
      if !HasJsonExtension(u.name) {
        return Err(InvalidExtension);
      }
      var safeName := UploadName(hex8);
      MakeBooksDir();
      WriteFile(safeName, u.content);
      outcome := ProcessStoredUpload(safeName, load, pyStr);
    }

    /**
     * `save_book_to_json`: creates the directory if needed, writes
     * `to_dict()` of the book (as `dump` encodes it) to `book_<hex8>.json`
     * and returns the file's path. When the name is new, that one file is
     * added and no other file changes.
     */
    method SaveBookToJson(book: Book, hex8: string, dump: Json -> Bytes) returns (path: string)
      requires Valid()
      requires IsHex8(hex8)
      modifies this
      ensures Valid()
      ensures dirExists
      ensures files == old(files)[MirrorName(hex8) := dump(ToDict(book))]
      ensures books == old(books) && nextId == old(nextId)
      ensures path == JoinPath(JoinPath(baseDir, BooksDir), MirrorName(hex8))
      ensures MirrorName(hex8) !in old(files) ==>
        && files.Keys == old(files).Keys + {MirrorName(hex8)}
        && forall n :: n in old(files) ==> files[n] == old(files)[n]
    {
      var booksDir := JoinPath(baseDir, BooksDir);
      MakeBooksDir();
      var filename := MirrorName(hex8);
      path := JoinPath(booksDir, filename);
      WriteFile(filename, dump(ToDict(book)));
    }

    /** `listing` is what `os.listdir` returns for the directory: each file once, in some order. */
    ghost predicate IsListing(listing: seq<string>)
      reads this
    {
      Distinct(listing) && forall n :: n in listing <==> n in files
    }

    /**
     * `json_files_list`: one row per `.json` name of the directory, in
     * listing order, each with its parsed content or read error and its
     * size; and the note "missing directory", "no JSON files" or none.
     */
    method JsonFilesList(listing: seq<string>, load: Bytes -> Decoded)
      returns (entries: seq<FileEntry>, message: ListMessage)
      requires Valid()
      requires dirExists ==> IsListing(listing)
      ensures !dirExists ==> message == MissingDirectory && entries == []
      ensures dirExists && JsonNames(listing) == [] ==> message == NoJsonFiles && entries == []
      ensures dirExists && JsonNames(listing) != [] ==> message == NoMessage
      ensures dirExists ==>
        && |entries| == |JsonNames(listing)|
        && forall i :: 0 <= i < |entries| ==>
             JsonNames(listing)[i] in files &&
             entries[i] == ReadEntry(JsonNames(listing)[i], files[JsonNames(listing)[i]], load)
    {
      entries := [];
      if !dirExists {
        message := MissingDirectory;
        return;
      }
      var jsonFiles := JsonNames(listing);
      if jsonFiles == [] {
        message := NoJsonFiles;
        return;
      }
      message := NoMessage;
      var k := 0;
      while k < |jsonFiles|
        invariant 0 <= k <= |jsonFiles|
        invariant |entries| == k
        invariant forall i :: 0 <= i < k ==>
          jsonFiles[i] in files && entries[i] == ReadEntry(jsonFiles[i], files[jsonFiles[i]], load)
      {
        var filename := jsonFiles[k];
        assert filename in listing;
        entries := entries + [ReadEntry(filename, files[filename], load)];
        k := k + 1;
      }
    }

    /** `export_books_json`: the encoded list of `to_dict()` of every row. */
    function ExportBooksJson(dump: Json -> Bytes): Bytes
      reads this
    {
      dump(JArray(ExportBooks(books)))
    }

    /**
     * Decoding the exported document gives back one object per row, and
     * each reads back as that row (with its id restored): export loses
     * nothing but the keys. `load` and `dump` are the JSON decoder and
     * encoder; the one requirement is that the decoder reads the exported
     * document back.
     */
    lemma ExportRoundTrip(dump: Json -> Bytes, load: Bytes -> Decoded)
      requires load(ExportBooksJson(dump)) == Parsed(JArray(ExportBooks(books)))
      ensures var d := load(ExportBooksJson(dump));
        && d.Parsed? && d.value.JArray? && |d.value.items| == |books|
        && forall i :: 0 <= i < |books| ==> FromDict(d.value.items[i], books[i].id) == Some(books[i])
    {
      var items := ExportBooks(books);
      forall i | 0 <= i < |books|
        ensures FromDict(items[i], books[i].id) == Some(books[i])
      {
        ToDictRoundTrip(books[i]);
      }
    }
  }
}
