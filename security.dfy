/**
 * Tenant authentication helpers: validating the `X-Tenant-ID` header,
 * deriving the vector-store namespace from a tenant id, and sanitising
 * free text input.
 */
module Security {
  import opened Wrappers
  import opened PyText

  /** The `SecurityError` raised by `validate_tenant_id`, one constructor per message. */
  datatype TenantError = MissingHeader | EmptyHeader | InvalidFormat | InvalidLength

  function TenantErrorMessage(e: TenantError): string {
    match e
    case MissingHeader => "Missing X-Tenant-ID header"
    case EmptyHeader => "X-Tenant-ID header cannot be empty"
    case InvalidFormat => "Invalid tenant ID format. Only alphanumeric characters, hyphens, and underscores are allowed."
    case InvalidLength => "Tenant ID must be between 3 and 64 characters"
  }

  /** A character of the class `[a-zA-Z0-9_-]`. */
  predicate IdChar(c: char) {
    ('a' <= c <= 'z') || ('A' <= c <= 'Z') || ('0' <= c <= '9') || c == '_' || c == '-'
  }

  predicate AllIdChars(s: string) {
    forall i :: 0 <= i < |s| ==> IdChar(s[i])
  }

  /**
   * `re.match(r'^[a-zA-Z0-9_-]+$', s)`: one or more class characters up to the
   * end, where `$` also matches just before a final newline.
   */
  predicate MatchesIdPattern(s: string) {
    (|s| >= 1 && AllIdChars(s)) || (|s| >= 2 && s[|s| - 1] == '\n' && AllIdChars(s[..|s| - 1]))
  }

  const MinTenantIdLength: nat := 3
  const MaxTenantIdLength: nat := 64

  /** `validate_tenant_id`: the header value stripped, or the first check it fails. */
  function ValidateTenantId(header: Option<string>): Result<string, TenantError> {
    if header == None || header.value == [] then Failure(MissingHeader)
    else
      var id := Strip(header.value);
      if id == [] then Failure(EmptyHeader)
      else if !MatchesIdPattern(id) then Failure(InvalidFormat)
      else if |id| < MinTenantIdLength || |id| > MaxTenantIdLength then Failure(InvalidLength)
      else Success(id)
  }

  /** An id the validator accepts: only class characters, and 3 to 64 of them. */
  predicate WellFormedTenantId(id: string) {
    AllIdChars(id) && MinTenantIdLength <= |id| <= MaxTenantIdLength
  }

  /** After `strip`, the newline case of the pattern cannot arise: it matches exactly the class strings. */
  lemma StrippedPatternMatch(s: string)
    ensures MatchesIdPattern(Strip(s)) <==> Strip(s) != [] && AllIdChars(Strip(s))
  {
    StripSpec(s);
  }

  /** Which header values are accepted, and what is returned for them. */
  lemma ValidateTenantIdAccepts(header: Option<string>)
    ensures ValidateTenantId(header).Success? <==>
      header.Some? && WellFormedTenantId(Strip(header.value))
    ensures ValidateTenantId(header).Success? ==> ValidateTenantId(header).value == Strip(header.value)
  {
    if header.Some? {
      var s := header.value;
      var id := Strip(s);
      StrippedPatternMatch(s);
      if s == [] {
        assert id == [];
      }
    }
  }

  /** Which error a rejected header gets: the checks run in the order missing, blank, format, length. */
  lemma ValidateTenantIdRejects(header: Option<string>)
    ensures header == None || header == Some([]) ==> ValidateTenantId(header) == Failure(MissingHeader)
    ensures header.Some? && header.value != [] && Blank(header.value) ==>
      ValidateTenantId(header) == Failure(EmptyHeader)
    ensures header.Some? && !Blank(header.value) && !AllIdChars(Strip(header.value)) ==>
      ValidateTenantId(header) == Failure(InvalidFormat)
    ensures header.Some? && !Blank(header.value) && AllIdChars(Strip(header.value))
      && !(MinTenantIdLength <= |Strip(header.value)| <= MaxTenantIdLength)
      ==> ValidateTenantId(header) == Failure(InvalidLength)
  {
    if header.Some? {
      StripEmptyIffBlank(header.value);
      StrippedPatternMatch(header.value);
    }
  }

  /** A trimmed, non-empty header value is validated as it stands. */
  lemma ValidateTrimmed(s: string)
    requires s != [] && Trimmed(s)
    ensures ValidateTenantId(Some(s)) ==
      if !AllIdChars(s) then Failure(InvalidFormat)
      else if |s| < MinTenantIdLength || |s| > MaxTenantIdLength then Failure(InvalidLength)
      else Success(s)
  {
    StripTrimmed(s);
  }

  /** The id the tests use as invalid is refused for its format, and so is a short id with a bad character. */
  lemma ValidateTenantIdExamples()
    ensures ValidateTenantId(Some("invalid@tenant!")) == Failure(InvalidFormat)
    ensures ValidateTenantId(Some("a!")) == Failure(InvalidFormat)
    ensures ValidateTenantId(Some("ab")) == Failure(InvalidLength)
    ensures ValidateTenantId(Some("test-tenant")) == Success("test-tenant")
  {
    BadCharacterExamples();
    LengthExamples();
  }

  lemma BadCharacterExamples()
    ensures ValidateTenantId(Some("invalid@tenant!")) == Failure(InvalidFormat)
    ensures ValidateTenantId(Some("a!")) == Failure(InvalidFormat)
  {
    ValidateTrimmed("invalid@tenant!");
    assert !IdChar("invalid@tenant!"[7]);
    ValidateTrimmed("a!");
    assert !IdChar("a!"[1]);
  }

  lemma LengthExamples()
    ensures ValidateTenantId(Some("ab")) == Failure(InvalidLength)
    ensures ValidateTenantId(Some("test-tenant")) == Success("test-tenant")
  {
    ValidateTrimmed("ab");
    ValidateTrimmed("test-tenant");
  }

  /** A character of the class `[a-z0-9_-]`, the ones the namespace keeps. */
  predicate NamespaceChar(c: char) {
    ('a' <= c <= 'z') || ('0' <= c <= '9') || c == '_' || c == '-'
  }

  /** One character of `sanitize_namespace`: lower-cased, then `_` if outside the class. */
  function NamespaceCharOf(c: char): (r: char)
    ensures NamespaceChar(r)
    ensures NamespaceChar(c) ==> r == c
  {
    var l := LowerChar(c);
    if NamespaceChar(l) then l else '_'
  }

  /** `sanitize_namespace`: lower-case, then replace every character outside `[a-z0-9_-]` with `_`. */
  function SanitizeNamespace(tenantId: string): (r: string)
    ensures |r| == |tenantId|
    ensures forall i :: 0 <= i < |r| ==> NamespaceChar(r[i])
  {
    var lowered := Lower(tenantId);
    seq(|lowered|, i requires 0 <= i < |lowered| => if NamespaceChar(lowered[i]) then lowered[i] else '_')
  }

  /** Sanitising a namespace again changes nothing. */
  lemma SanitizeNamespaceIdempotent(s: string)
    ensures SanitizeNamespace(SanitizeNamespace(s)) == SanitizeNamespace(s)
  {
    var n := SanitizeNamespace(s);
    forall i | 0 <= i < |n| ensures SanitizeNamespace(n)[i] == n[i] {
      assert LowerChar(n[i]) == n[i];
    }
  }

  /** Two ids equal up to ASCII letter case. */
  predicate SameIgnoringCase(a: string, b: string) {
    |a| == |b| && forall i :: 0 <= i < |a| ==> LowerChar(a[i]) == LowerChar(b[i])
  }

  /**
   * Tenant isolation holds only up to case: two well-formed ids share a
   * namespace exactly when they are equal ignoring letter case.
   */
  lemma NamespaceCollision(a: string, b: string)
    requires WellFormedTenantId(a) && WellFormedTenantId(b)
    ensures SanitizeNamespace(a) == SanitizeNamespace(b) <==> SameIgnoringCase(a, b)
  {
    var na, nb := SanitizeNamespace(a), SanitizeNamespace(b);
    forall i | 0 <= i < |a| ensures na[i] == LowerChar(a[i]) {
      assert IdChar(a[i]);
    }
    forall i | 0 <= i < |b| ensures nb[i] == LowerChar(b[i]) {
      assert IdChar(b[i]);
    }
    if na == nb {
      forall i | 0 <= i < |a| ensures LowerChar(a[i]) == LowerChar(b[i]) {
        assert na[i] == nb[i];
      }
    }
    if SameIgnoringCase(a, b) {
      assert forall i :: 0 <= i < |a| ==> na[i] == nb[i];
    }
  }

  /** For a well-formed id the namespace is just the id lower-cased. */
  lemma NamespaceOfWellFormed(id: string)
    requires WellFormedTenantId(id)
    ensures SanitizeNamespace(id) == Lower(id)
  {
    forall i | 0 <= i < |id| ensures SanitizeNamespace(id)[i] == Lower(id)[i] {
      assert IdChar(id[i]);
    }
  }

  lemma AcmeAccepted()
    ensures ValidateTenantId(Some("Acme")) == Success("Acme")
    ensures WellFormedTenantId("Acme")
  {
    ValidateTrimmed("Acme");
  }

  lemma LowerAcmeAccepted()
    ensures ValidateTenantId(Some("acme")) == Success("acme")
    ensures WellFormedTenantId("acme")
  {
    ValidateTrimmed("acme");
  }

  lemma AcmeSameIgnoringCase()
    ensures SameIgnoringCase("Acme", "acme")
  {
    var a, b := "Acme", "acme";
    assert LowerChar(a[0]) == 'a' == LowerChar(b[0]);
    assert a[1] == b[1] && a[2] == b[2] && a[3] == b[3];
  }

  /** "Acme" and "acme" are different accepted tenants that share one namespace: the map is not injective. */
  lemma NamespaceNotInjective()
    ensures ValidateTenantId(Some("Acme")) == Success("Acme")
    ensures ValidateTenantId(Some("acme")) == Success("acme")
    ensures "Acme" != "acme"
    ensures SanitizeNamespace("Acme") == SanitizeNamespace("acme")
  {
    AcmeAccepted();
    LowerAcmeAccepted();
    assert "Acme"[0] != "acme"[0];
    AcmeSameIgnoringCase();
    NamespaceCollision("Acme", "acme");
  }

  /** The `HTTPException` raised by `sanitize_text_input`. */
  datatype TextError = EmptyText | TextTooLong(maxLength: int)

  function TextErrorMessage(e: TextError): string {
    match e
    case EmptyText => "Text input cannot be empty"
    case TextTooLong(m) => "Text input exceeds maximum length of " + (if m >= 0 then Decimal(m) else "-" + Decimal(-m)) + " characters"
  }

  const DefaultMaxTextLength: int := 50000

  /** `sanitize_text_input`: reject blank text, strip it, then reject it if still longer than the limit. */
  function SanitizeTextInput(text: string, maxLength: int): (r: Result<string, TextError>)
    ensures r.Success? <==> !Blank(text) && |Strip(text)| <= maxLength
    ensures r.Success? ==> r.value == Strip(text) && r.value != [] && Trimmed(r.value)
    ensures Blank(text) ==> r == Failure(EmptyText)
    ensures !Blank(text) && |Strip(text)| > maxLength ==> r == Failure(TextTooLong(maxLength))
  {
    StripEmptyIffBlank(text);
    StripSpec(text);
    if text == [] || Strip(text) == [] then Failure(EmptyText)
    else
      var t := Strip(text);
      if |t| > maxLength then Failure(TextTooLong(maxLength)) else Success(t)
  }

  /** Sanitising accepted text again returns it unchanged. */
  lemma SanitizeTextInputIdempotent(text: string, maxLength: int)
    requires SanitizeTextInput(text, maxLength).Success?
    ensures SanitizeTextInput(SanitizeTextInput(text, maxLength).value, maxLength) == SanitizeTextInput(text, maxLength)
  {
    var t := SanitizeTextInput(text, maxLength).value;
    StripTrimmed(t);
    StripEmptyIffBlank(t);
  }
}
