/**
 * Request validation of the two request bodies the core accepts: a
 * document upload and a query. Field constraints (`min_length`,
 * `max_length`, `ge`, `le`) are checked on the raw value first; the
 * after-validator then rejects blank strings and returns them stripped.
 */
module Schemas {
  import opened Wrappers
  import opened PyText
  import Security

  /** One entry of a 422 validation error. */
  datatype FieldError =
    | StringTooShort(field: string, minLength: nat)
    | StringTooLong(field: string, maxLength: nat)
    | BlankValue(field: string)
    | LessThan(field: string, bound: int)
    | GreaterThan(field: string, bound: int)

  const UploadTextMin: nat := 1
  const UploadTextMax: nat := 50000
  const QuestionMin: nat := 1
  const QuestionMax: nat := 1000
  const TopKMin: int := 1
  const TopKMax: int := 20

  /** A string field: raw length bounds first, then the strip-and-reject-blank validator. */
  function ValidateStringField(field: string, v: string, minLength: nat, maxLength: nat): (r: Result<string, FieldError>)
    ensures r.Success? <==> minLength <= |v| <= maxLength && !Blank(v)
    ensures r.Success? ==> r.value == Strip(v) && r.value != [] && Trimmed(r.value) && |r.value| <= maxLength
    ensures |v| < minLength ==> r == Failure(StringTooShort(field, minLength))
    ensures minLength <= |v| && maxLength < |v| ==> r == Failure(StringTooLong(field, maxLength))
    ensures minLength <= |v| <= maxLength && Blank(v) ==> r == Failure(BlankValue(field))
  {
    StripSpec(v);
    StripEmptyIffBlank(v);
    if |v| < minLength then Failure(StringTooShort(field, minLength))
    else if |v| > maxLength then Failure(StringTooLong(field, maxLength))
    else if Strip(v) == [] then Failure(BlankValue(field))
    else Success(Strip(v))
  }

  /** `DocumentUploadRequest.text`: 1 to 50000 characters as sent, not blank, kept stripped. */
  function ValidateUploadText(text: string): Result<string, FieldError> {
    ValidateStringField("text", text, UploadTextMin, UploadTextMax)
  }

  /** The empty upload text is refused, as the upload test expects, and blank text too. */
  lemma UploadTextRejected(text: string)
    ensures ValidateUploadText("") == Failure(StringTooShort("text", 1))
    ensures text != [] && |text| <= UploadTextMax && Blank(text) ==> ValidateUploadText(text) == Failure(BlankValue("text"))
  {
    StripEmptyIffBlank(text);
  }

  /**
   * The length bound is checked before stripping: padding can push an
   * upload over the limit even though its stripped text would fit.
   */
  lemma UploadLengthBeforeStrip()
    ensures var v := "x" + seq(UploadTextMax, _ => ' ');
      |Strip(v)| == 1 && ValidateUploadText(v).Failure?
  {
    var v := "x" + seq(UploadTextMax, _ => ' ');
    StripSpec(v);
    assert LStrip(v) == v;
    assert Strip(v) != [] by { StripEmptyIffBlank(v); assert !IsSpace(v[0]); }
    assert RStrip(v)[0] == 'x';
  }

  /** Accepted upload text also passes `sanitize_text_input` with its default limit, unchanged. */
  lemma UploadTextIsSanitized(text: string)
    requires ValidateUploadText(text).Success?
    ensures Security.SanitizeTextInput(ValidateUploadText(text).value, Security.DefaultMaxTextLength)
      == Success(ValidateUploadText(text).value)
  {
    var t := ValidateUploadText(text).value;
    StripTrimmed(t);
    StripEmptyIffBlank(t);
  }

  /** A validated `QueryRequest`. */
  datatype QueryRequest = QueryRequest(question: string, topK: Option<int>)

  /** `QueryRequest.top_k`: absent, or an integer from 1 to 20. */
  function ValidateTopK(topK: Option<int>): (r: Result<Option<int>, FieldError>)
    ensures r.Success? <==> topK.None? || TopKMin <= topK.value <= TopKMax
    ensures r.Success? ==> r.value == topK
    ensures topK.Some? && topK.value < TopKMin ==> r == Failure(LessThan("top_k", TopKMin))
    ensures topK.Some? && TopKMax < topK.value ==> r == Failure(GreaterThan("top_k", TopKMax))
  {
    match topK
    case None => Success(None)
    case Some(k) =>
      if k < TopKMin then Failure(LessThan("top_k", TopKMin))
      else if k > TopKMax then Failure(GreaterThan("top_k", TopKMax))
      else Success(Some(k))
  }

  /** Both fields of a `QueryRequest`; every failing field contributes its error, question first. */
  function ValidateQueryRequest(question: string, topK: Option<int>): (r: Result<QueryRequest, seq<FieldError>>)
    ensures r.Success? <==>
      && QuestionMin <= |question| <= QuestionMax
      && !Blank(question)
      && (topK.None? || TopKMin <= topK.value <= TopKMax)
    ensures r.Success? ==>
      && r.value.question == Strip(question)
      && r.value.question != []
      && |r.value.question| <= QuestionMax
      && r.value.topK == topK
    ensures r.Failure? ==> 1 <= |r.error| <= 2
    ensures var q := ValidateStringField("question", question, QuestionMin, QuestionMax);
      var k := ValidateTopK(topK);
      && (r.Failure? ==> |r.error| == (if q.Failure? then 1 else 0) + (if k.Failure? then 1 else 0))
      && (q.Failure? ==> r.Failure? && r.error[0] == q.error)
      && (k.Failure? ==> r.Failure? && r.error[|r.error| - 1] == k.error)
  {
    var q := ValidateStringField("question", question, QuestionMin, QuestionMax);
    var k := ValidateTopK(topK);
    if q.Success? && k.Success? then Success(QueryRequest(q.value, k.value))
    else
      Failure((if q.Failure? then [q.error] else []) + (if k.Failure? then [k.error] else []))
  }

  /** The empty question is refused, as the query test expects. */
  lemma EmptyQuestionRejected(topK: Option<int>)
    ensures ValidateQueryRequest("", topK).Failure?
    ensures ValidateQueryRequest("", topK).error[0] == StringTooShort("question", 1)
  {
  }
}
