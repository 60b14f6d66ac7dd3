/**
 * Worked uploads: concrete documents run through the pipeline's verdict.
 * Each lemma fixes what the decoder yields for the uploaded bytes and
 * states what the pipeline does with it.
 */
module UploadScenarios {
  import opened Wrappers
  import opened PyText
  import opened JsonValues
  import opened Models
  import opened Views

  /** A complete document without genre or description is stored, both defaulting to the empty string. */
  lemma DuneIsStored(content: Bytes, load: Bytes -> Decoded, pyStr: Json -> string, id: nat)
    requires |content| > 0
    requires load(content) == Parsed(RequiredOnly("Dune", "Frank Herbert", JInt(1965), JInt(412)))
    ensures Ingest(Upload("book.json", content), load, pyStr, id) ==
      Ok(Book(id, "Dune", "Frank Herbert", 1965, 412, "", ""))
  {
    assert "book.json" == "book" + ".json";
    LowerKeepsJsonSuffix("book");
    assert !IsSpace("Dune"[0]) && !IsSpace("Frank Herbert"[0]);
    IngestStoresRequiredOnly(Upload("book.json", content), load, pyStr, id,
                             "Dune", "Frank Herbert", JInt(1965), JInt(412));
  }

  /** The extension test ignores case. */
  lemma UpperCaseExtensionPasses()
    ensures HasJsonExtension("BOOK.JSON")
  {
    var name := "BOOK.JSON";
    assert name[4] == '.' && name[5] == 'J' && name[6] == 'S' && name[7] == 'O' && name[8] == 'N';
    HasJsonExtensionIff(name);
  }

  /** A text file is rejected before anything is stored. */
  lemma TextFileIsRejected(content: Bytes, load: Bytes -> Decoded, pyStr: Json -> string, id: nat)
    requires |content| > 0
    ensures Ingest(Upload("notes.txt", content), load, pyStr, id) == Err(InvalidExtension)
  {
    var l := Lower("notes.txt");
    assert "notes.txt"[4] == 's';
    assert l[4] == 's';
    assert l[4..][0] != ".json"[0];
  }

  /** A document without pages fails the structural check. */
  lemma MissingPagesIsRejected(content: Bytes, load: Bytes -> Decoded, pyStr: Json -> string, id: nat)
    requires |content| > 0
    requires load(content) == Parsed(JObject(map["title" := JString("X"), "author" := JString("Y"), "year" := JInt(1965)]))
    ensures Ingest(Upload("bad.json", content), load, pyStr, id) == Err(InvalidStructure)
  {
    assert "bad.json" == "bad" + ".json";
    LowerKeepsJsonSuffix("bad");
    var fields := load(content).value.fields;
    assert "pages" !in fields;
    ValidateRejectsMissingKey(fields, "pages");
  }

  /**
   * Year 2050 is past the form's range, but the upload path checks only
   * the lower bound and model validation sets no range: the row is stored.
   */
  lemma Year2050IsStored(content: Bytes, load: Bytes -> Decoded, pyStr: Json -> string, id: nat)
    requires |content| > 0
    requires load(content) == Parsed(RequiredOnly("X", "Y", JInt(2050), JInt(10)))
    ensures Ingest(Upload("range.json", content), load, pyStr, id) == Ok(Book(id, "X", "Y", 2050, 10, "", ""))
  {
    assert "range.json" == "range" + ".json";
    LowerKeepsJsonSuffix("range");
    assert !IsSpace("X"[0]) && !IsSpace("Y"[0]);
    IngestStoresRequiredOnly(Upload("range.json", content), load, pyStr, id, "X", "Y", JInt(2050), JInt(10));
  }

  /** Year 999 already fails the structural check. */
  lemma Year999IsRejected(content: Bytes, load: Bytes -> Decoded, pyStr: Json -> string, id: nat)
    requires |content| > 0
    requires load(content) == Parsed(RequiredOnly("X", "Y", JInt(999), JInt(10)))
    ensures Ingest(Upload("range.json", content), load, pyStr, id) == Err(InvalidStructure)
  {
    assert "range.json" == "range" + ".json";
    LowerKeepsJsonSuffix("range");
    RequiredOnlyChecks("X", "Y", JInt(999), JInt(10));
    assert !IsPlausibleYear(JInt(999));
    assert !ValidateBookJson(RequiredOnly("X", "Y", JInt(999), JInt(10)));
    assert IngestStored(content, load, pyStr, id) == Err(InvalidStructure);
  }

  /** `"pages": true` passes as the integer 1 and is stored as 1. */
  lemma PagesTrueIsStoredAsOne(content: Bytes, load: Bytes -> Decoded, pyStr: Json -> string, id: nat)
    requires |content| > 0
    requires load(content) == Parsed(RequiredOnly("X", "Y", JInt(1965), JBool(true)))
    ensures Ingest(Upload("x.json", content), load, pyStr, id) == Ok(Book(id, "X", "Y", 1965, 1, "", ""))
  {
    assert "x.json" == "x" + ".json";
    LowerKeepsJsonSuffix("x");
    assert !IsSpace("X"[0]) && !IsSpace("Y"[0]);
    IngestStoresRequiredOnly(Upload("x.json", content), load, pyStr, id, "X", "Y", JInt(1965), JBool(true));
  }
}
