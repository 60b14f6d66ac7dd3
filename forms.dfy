/**
 * BookForm: the fields it edits and its two extra field validators, which
 * put a calendar range on year and a sign on pages. Only the form path uses
 * them; the JSON upload path does not.
 */
module Forms {
  import opened Wrappers
  import Models

  /** `BookForm.Meta.fields`, in order. */
  const MetaFields: seq<string> := ["title", "author", "year", "pages", "genre", "description"]

  const MinYear: int := 1000
  const MaxYear: int := 2030

  /** The two validation errors the form raises (their messages are left out). */
  datatype FormError = InvalidYear | NonPositivePages

  /** The form edits every editable field of the model, in declaration order, and nothing else. */
  lemma MetaFieldsAreModelFields()
    ensures MetaFields == Models.BookFields
    ensures "id" !in MetaFields
  {
  }

  /** `BookForm.clean_year`: the year unchanged inside 1000..2030, an error outside. */
  function CleanYear(year: int): (r: Result<int, FormError>)
    ensures r.Ok? <==> MinYear <= year <= MaxYear
    ensures r.Ok? ==> r.value == year
    ensures r.Err? ==> r.error == InvalidYear
  {
    if year < MinYear || year > MaxYear then Err(InvalidYear) else Ok(year)
  }

  /** `BookForm.clean_pages`: the page count unchanged when positive, an error from 0 down. */
  function CleanPages(pages: int): (r: Result<int, FormError>)
    ensures r.Ok? <==> pages > 0
    ensures r.Ok? ==> r.value == pages
    ensures r.Err? ==> r.error == NonPositivePages
  {
    if pages <= 0 then Err(NonPositivePages) else Ok(pages)
  }
}
