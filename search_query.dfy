/** Search queries: an optional text and an optional tag, with the validity
    rule and the normalisation the note service applies before searching. */
module SearchQueries {
  import opened Wrappers
  import opened Text

  datatype SearchQuery = SearchQuery(text: Option<string>, tag: Option<string>)

  /** The query with neither field, `{}`. */
  const EmptyQuery := SearchQuery(None, None)

  /** `field?.trim() ?? ""`: the trimmed field, or "" when it is absent. */
  function TrimmedOrEmpty(field: Option<string>): (r: string)
    ensures field.None? ==> r == []
    ensures field.Some? ==> r == Trim(field.value)
  {
    if field.Some? then Trim(field.value) else []
  }

  /** `field?.trim() || undefined`: the trimmed field, absent when it is
      absent or blank. */
  function TrimmedOrAbsent(field: Option<string>): (r: Option<string>)
    ensures r.Some? <==> field.Some? && Trim(field.value) != []
    ensures r.Some? ==> r.value == Trim(field.value) && r.value != []
  {
    if field.Some? && Trim(field.value) != [] then Some(Trim(field.value)) else None
  }

  /** `SearchQueryValidator.isValid`: a query is valid unless both trimmed
      fields are empty or the trimmed text is exactly one character long.
      A tag on its own has no minimum length. */
  function IsValid(q: SearchQuery): (b: bool)
    ensures |TrimmedOrEmpty(q.text)| == 0 && |TrimmedOrEmpty(q.tag)| == 0 ==> !b
    ensures |TrimmedOrEmpty(q.text)| == 1 ==> !b
    ensures |TrimmedOrEmpty(q.text)| >= 2 ==> b
    ensures |TrimmedOrEmpty(q.text)| == 0 && |TrimmedOrEmpty(q.tag)| != 0 ==> b
  {
    var text := TrimmedOrEmpty(q.text);
    var tag := TrimmedOrEmpty(q.tag);
    if |text| == 0 && |tag| == 0 then false
    else if |text| > 0 && |text| < 2 then false
    else true
  }

  /** `SearchQueryValidator.normalize`: both fields trimmed, a blank field
      (or an absent one) becomes absent; `{}` maps to `{}`. */
  function Normalize(q: SearchQuery): (r: SearchQuery)
    ensures r.text == TrimmedOrAbsent(q.text) && r.tag == TrimmedOrAbsent(q.tag)
    ensures q == EmptyQuery ==> r == EmptyQuery
  {
    SearchQuery(TrimmedOrAbsent(q.text), TrimmedOrAbsent(q.tag))
  }

  /** A normalised query has no blank fields and no whitespace at the ends
      of its fields. */
  predicate IsNormal(q: SearchQuery) {
    (q.text.Some? ==> q.text.value != [] && Trimmed(q.text.value))
    && (q.tag.Some? ==> q.tag.value != [] && Trimmed(q.tag.value))
  }

  lemma NormalizeIsNormal(q: SearchQuery)
    ensures IsNormal(Normalize(q))
  {
  }

  /** Trimming or dropping a blank field does not change what the trimmed
      reading of the field is. */
  lemma TrimmedOrEmptyOfAbsent(field: Option<string>)
    ensures TrimmedOrEmpty(TrimmedOrAbsent(field)) == TrimmedOrEmpty(field)
  {
    if field.Some? && Trim(field.value) != [] {
      TrimIdempotent(field.value);
    }
  }

  /** Normalisation is idempotent. */
  lemma NormalizeIdempotent(q: SearchQuery)
    ensures Normalize(Normalize(q)) == Normalize(q)
  {
    if q.text.Some? && Trim(q.text.value) != [] {
      TrimIdempotent(q.text.value);
    }
    if q.tag.Some? && Trim(q.tag.value) != [] {
      TrimIdempotent(q.tag.value);
    }
  }

  /** Normalisation preserves every trimmed field, so validity and every
      reading of the query made after trimming. */
  lemma NormalizePreservesTerms(q: SearchQuery)
    ensures TrimmedOrEmpty(Normalize(q).text) == TrimmedOrEmpty(q.text)
    ensures TrimmedOrEmpty(Normalize(q).tag) == TrimmedOrEmpty(q.tag)
    ensures IsValid(Normalize(q)) == IsValid(q)
  {
    TrimmedOrEmptyOfAbsent(q.text);
    TrimmedOrEmptyOfAbsent(q.tag);
  }

  /** Validity in terms of the normalised query: some field is present and
      any text has at least two characters. */
  lemma {:induction false} ValidIffNormalHasTerms(q: SearchQuery)
    ensures IsValid(q) <==>
      var n := Normalize(q);
      (n.text.Some? || n.tag.Some?) && (n.text.Some? ==> |n.text.value| >= 2)
  {
  }
}
