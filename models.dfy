/**
 * The Book record of the catalogue: its fields and their model-level
 * constraints, the dictionary projection used for JSON mirrors and exports,
 * the display string, and Django's model validation (`full_clean`) and
 * insert as they apply to these six fields.
 */
module Models {
  import opened Wrappers
  import opened JsonValues

  const TitleMaxLength: nat := 200
  const AuthorMaxLength: nat := 100
  const GenreMaxLength: nat := 50

  /** The range the database backend admits in an IntegerField (SQLite: 64-bit signed). */
  const IntFieldMin: int := -0x8000_0000_0000_0000
  const IntFieldMax: int := 0x7FFF_FFFF_FFFF_FFFF

  /** A row of the Book table; `id` is the key the store assigns. */
  datatype Book = Book(
    id: nat,
    title: string,
    author: string,
    year: int,
    pages: int,
    genre: string,
    description: string)

  /** The editable fields of Book, in declaration order. */
  const BookFields: seq<string> := ["title", "author", "year", "pages", "genre", "description"]

  /**
   * The field constraints of the model: title and author required and
   * bounded, year and pages integers in the backend's range, genre bounded,
   * description free. There is no calendar range on year and no sign on pages.
   */
  predicate ModelValid(b: Book) {
    && b.title != "" && |b.title| <= TitleMaxLength
    && b.author != "" && |b.author| <= AuthorMaxLength
    && IntFieldMin <= b.year <= IntFieldMax
    && IntFieldMin <= b.pages <= IntFieldMax
    && |b.genre| <= GenreMaxLength
  }

  /** `Book.to_dict`: the six editable fields under their own names, without the id. */
  function ToDict(b: Book): (r: Json)
    ensures r.JObject?
    ensures r.fields.Keys == set f | f in BookFields
    ensures "id" !in r.fields
  {
    JObject(map[
      "title" := JString(b.title),
      "author" := JString(b.author),
      "year" := JInt(b.year),
      "pages" := JInt(b.pages),
      "genre" := JString(b.genre),
      "description" := JString(b.description)])
  }

  /** Each entry of `to_dict` holds the field of the same name. */
  lemma ToDictEntries(b: Book)
    ensures var f := ToDict(b).fields;
      && f["title"] == JString(b.title) && f["author"] == JString(b.author)
      && f["year"] == JInt(b.year) && f["pages"] == JInt(b.pages)
      && f["genre"] == JString(b.genre) && f["description"] == JString(b.description)
  {
  }

  /**
   * Reads a dictionary of the shape `to_dict` produces back into a Book
   * with the given id; any other value gives nothing.
   */
  function FromDict(j: Json, id: nat): (r: Option<Book>)
    ensures r.Some? ==> r.value.id == id && j.JObject?
  {
    if && j.JObject?
       && "title" in j.fields && j.fields["title"].JString?
       && "author" in j.fields && j.fields["author"].JString?
       && "year" in j.fields && j.fields["year"].JInt?
       && "pages" in j.fields && j.fields["pages"].JInt?
       && "genre" in j.fields && j.fields["genre"].JString?
       && "description" in j.fields && j.fields["description"].JString?
    then
      Some(Book(id, j.fields["title"].s, j.fields["author"].s, j.fields["year"].i,
                j.fields["pages"].i, j.fields["genre"].s, j.fields["description"].s))
    else
      None
  }

  /** `to_dict` loses nothing but the id: reading it back gives the same Book. */
  lemma ToDictRoundTrip(b: Book)
    ensures FromDict(ToDict(b), b.id) == Some(b)
  {
  }

  /** Two Books with the same dictionary differ at most in their id. */
  lemma ToDictDeterminesFields(a: Book, b: Book)
    requires ToDict(a) == ToDict(b)
    ensures a.(id := b.id) == b
  {
    ToDictRoundTrip(a);
    ToDictRoundTrip(b);
    assert FromDict(ToDict(a), b.id) == Some(a.(id := b.id));
  }

  /** `Book.__str__`: the title, a spaced dash, the author. */
  function Str(b: Book): (r: string)
    ensures |r| == |b.title| + 3 + |b.author|
    ensures r[..|b.title|] == b.title
    ensures r[|b.title|..|b.title| + 3] == " - "
    ensures r[|b.title| + 3..] == b.author
  {
    b.title + " - " + b.author
  }

  /** Among Books with one title, the display string tells the authors apart. */
  lemma StrSeparatesAuthors(a: Book, b: Book)
    requires a.title == b.title
    ensures Str(a) == Str(b) <==> a.author == b.author
  {
    if Str(a) == Str(b) {
      assert a.author == Str(a)[|a.title| + 3..];
    }
  }

  // ---------------------------------------------------------------------------
  // Model validation and insert, as the upload path drives them.
  // ---------------------------------------------------------------------------

  /**
   * The Book the upload path constructs before validating it: title and
   * author are strings, year and pages integers (the structural check has
   * made sure of that), genre and description whatever the document held.
   */
  datatype Candidate = Candidate(
    title: string,
    author: string,
    year: int,
    pages: int,
    genre: Json,
    description: Json)

  datatype FieldName = TitleField | AuthorField | YearField | PagesField | GenreField | DescriptionField

  datatype ErrorCode = Blank | MaxLength(length: nat) | MinValue(bound: int) | MaxValue(bound: int)

  /**
   * Django's `Field.empty_values` as far as JSON can produce them:
   * None, '', [] and {}.
   */
  predicate IsEmptyValue(j: Json) {
    j == JNull || j == JString("") || j == JArray([]) || j == JObject(map[])
  }

  /**
   * `CharField.to_python` / `TextField.to_python`, which the insert also uses
   * to prepare the value: None stays None, a string stays itself, anything
   * else becomes `str(value)`. `pyStr` stands for Python's `str` of a
   * non-empty container, a number or a boolean.
   */
  function ToText(j: Json, pyStr: Json -> string): (r: Option<string>)
    ensures r.None? <==> j.JNull?
    ensures j.JString? ==> r == Some(j.s)
  {
    match j
    case JNull => None
    case JString(s) => Some(s)
    case JArray(items) => if items == [] then Some("[]") else Some(pyStr(j))
    case JObject(fields) => if fields == map[] then Some("{}") else Some(pyStr(j))
    case _ => Some(pyStr(j))
  }

  /** A required CharField: blank is checked before the length. */
  function RequiredTextError(s: string, maxLength: nat): (r: Option<ErrorCode>)
    ensures r.None? <==> s != "" && |s| <= maxLength
    ensures r.Some? ==> r.value in {Blank, MaxLength(maxLength)}
  {
    if s == "" then Some(Blank)
    else if |s| > maxLength then Some(MaxLength(maxLength))
    else None
  }

  /** An IntegerField: the backend's range validators. */
  function IntegerError(n: int): (r: Option<ErrorCode>)
    ensures r.None? <==> IntFieldMin <= n <= IntFieldMax
  {
    if n < IntFieldMin then Some(MinValue(IntFieldMin))
    else if n > IntFieldMax then Some(MaxValue(IntFieldMax))
    else None
  }

  /**
   * A field with `blank=True` holding a raw value: `clean_fields` skips it
   * when the value is empty; otherwise the text is checked against the
   * length limit, if the field has one.
   */
  function OptionalTextError(j: Json, maxLength: Option<nat>, pyStr: Json -> string): (r: Option<ErrorCode>)
    ensures r.None? <==> IsEmptyValue(j) || maxLength.None? || |ToText(j, pyStr).value| <= maxLength.value
  {
    if IsEmptyValue(j) then None
    else match maxLength
      case None => None
      case Some(limit) =>
        if |ToText(j, pyStr).value| > limit then Some(MaxLength(limit)) else None
  }

  /** Records the error of one field, if it has one. */
  function WithError(errors: map<FieldName, ErrorCode>, field: FieldName, e: Option<ErrorCode>): (r: map<FieldName, ErrorCode>)
    ensures r.Keys == if e.Some? then errors.Keys + {field} else errors.Keys
    ensures e.Some? ==> r[field] == e.value
    ensures forall k :: k in errors && k != field ==> r[k] == errors[k]
  {
    if e.Some? then errors[field := e.value] else errors
  }

  /**
   * `full_clean()` on a candidate: the field errors by field, empty when
   * validation passes. The constraints are exactly those of the fields'
   * declarations; there is no range on year or pages beyond the backend's.
   */
  function FieldErrors(c: Candidate, pyStr: Json -> string): (errors: map<FieldName, ErrorCode>)
    ensures errors == map[] <==>
      && c.title != "" && |c.title| <= TitleMaxLength
      && c.author != "" && |c.author| <= AuthorMaxLength
      && IntFieldMin <= c.year <= IntFieldMax
      && IntFieldMin <= c.pages <= IntFieldMax
      && (IsEmptyValue(c.genre) || |ToText(c.genre, pyStr).value| <= GenreMaxLength)
    ensures DescriptionField !in errors
  {
    var e0: map<FieldName, ErrorCode> := map[];
    var e1 := WithError(e0, TitleField, RequiredTextError(c.title, TitleMaxLength));
    var e2 := WithError(e1, AuthorField, RequiredTextError(c.author, AuthorMaxLength));
    var e3 := WithError(e2, YearField, IntegerError(c.year));
    var e4 := WithError(e3, PagesField, IntegerError(c.pages));
    var e5 := WithError(e4, GenreField, OptionalTextError(c.genre, Some(GenreMaxLength), pyStr));
    WithError(e5, DescriptionField, OptionalTextError(c.description, None, pyStr))
  }

  /**
   * `book.save()` of a validated candidate: the row the store keeps, or
   * nothing when genre or description is None, which the NOT NULL columns refuse.
   */
  function SaveRow(c: Candidate, pyStr: Json -> string, id: nat): (r: Option<Book>)
    ensures r.None? <==> c.genre.JNull? || c.description.JNull?
    ensures r.Some? ==> && r.value.id == id
                        && r.value.title == c.title && r.value.author == c.author
                        && r.value.year == c.year && r.value.pages == c.pages
                        && Some(r.value.genre) == ToText(c.genre, pyStr)
                        && Some(r.value.description) == ToText(c.description, pyStr)
  {
    var genre := ToText(c.genre, pyStr);
    var description := ToText(c.description, pyStr);
    if genre.None? || description.None? then None
    else Some(Book(id, c.title, c.author, c.year, c.pages, genre.value, description.value))
  }

  /** A candidate that passes validation and is stored meets every field constraint. */
  lemma SavedRowIsModelValid(c: Candidate, pyStr: Json -> string, id: nat)
    requires FieldErrors(c, pyStr) == map[]
    requires SaveRow(c, pyStr, id).Some?
    ensures ModelValid(SaveRow(c, pyStr, id).value)
  {
  }

  /**
   * The candidate built from a row's own values passes model validation and
   * is stored as that row under any key: validation accepts every valid row.
   */
  lemma ValidBookIsStored(b: Book, pyStr: Json -> string, id: nat)
    requires ModelValid(b)
    ensures var c := Candidate(b.title, b.author, b.year, b.pages, JString(b.genre), JString(b.description));
      FieldErrors(c, pyStr) == map[] && SaveRow(c, pyStr, id) == Some(b.(id := id))
  {
    var c := Candidate(b.title, b.author, b.year, b.pages, JString(b.genre), JString(b.description));
    assert ToText(c.genre, pyStr) == Some(b.genre);
    assert ToText(c.description, pyStr) == Some(b.description);
  }

  /**
   * Model validation puts no calendar range on year: a candidate that
   * passes keeps passing with any year the backend can store.
   */
  lemma FieldErrorsIgnoreCalendar(c: Candidate, pyStr: Json -> string, year: int)
    requires FieldErrors(c, pyStr) == map[]
    requires IntFieldMin <= year <= IntFieldMax
    ensures FieldErrors(c.(year := year), pyStr) == map[]
  {
  }
}
