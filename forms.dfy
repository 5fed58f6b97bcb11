/**
 * The state behind the two document forms of the frontend, the Will page and
 * the Power of Attorney page. Each page keeps the values typed so far, the
 * per-field error messages, and three flags: a preview request in flight,
 * the preview's base64 text, and whether the final document was downloaded.
 *
 * Both pages share one shape and differ in their field lists, their
 * required-field rule and the document type they send; `DocKind` selects
 * between them. The network calls are inputs: `SubmitSettled` receives how
 * the preview request ended, and `HandlePay` whether the download succeeded.
 * Inputs only ever produce strings, so a form value is a string or absent.
 */
module Forms {
  import opened Wrappers
  import opened Text

  datatype DocKind = Will | PowerOfAttorney

  const Required: string := "This field is required"

  /** The Will page's fields, in display order. */
  const WillFields: seq<string> :=
    ["full_name", "address", "dob", "execution_date", "beneficiaries",
     "executor", "provisions", "witness1", "witness2", "city"]

  /** The Power of Attorney page's fields, in display order. */
  const PoaFields: seq<string> :=
    ["principal_name", "principal_address", "attorney_name", "attorney_address", "scope",
     "effective_date", "additional_terms", "city", "country", "contact_email"]

  /** The one Power of Attorney field that may be left empty. */
  const OptionalPoaField: string := "additional_terms"

  function Fields(kind: DocKind): seq<string> {
    match kind
    case Will => WillFields
    case PowerOfAttorney => PoaFields
  }

  /** The `doc_type` each page sends. */
  function DocTypeName(kind: DocKind): string {
    match kind
    case Will => "WILL"
    case PowerOfAttorney => "POA"
  }

  /** The Will page's rule: the value is absent or trims to nothing. */
  predicate WillMissing(formData: map<string, string>, name: string) {
    name !in formData || Strip(formData[name]) == ""
  }

  /**
   * The Power of Attorney page's rule: any field but `additional_terms`
   * whose value is absent, empty (falsy) or trims to nothing.
   */
  predicate PoaMissing(formData: map<string, string>, name: string) {
    name != OptionalPoaField && (name !in formData || formData[name] == "" || Strip(formData[name]) == "")
  }

  predicate Missing(kind: DocKind, formData: map<string, string>, name: string) {
    match kind
    case Will => WillMissing(formData, name)
    case PowerOfAttorney => PoaMissing(formData, name)
  }

  /** The two pages' rules agree on every field except the optional one. */
  lemma RulesAgree(formData: map<string, string>, name: string)
    ensures PoaMissing(formData, name) <==> name != OptionalPoaField && WillMissing(formData, name)
  {
    if name in formData && formData[name] == "" {
      StripBlank(formData[name]);
    }
  }

  /** `additional_terms` is never reported, whatever has been typed. */
  lemma AdditionalTermsNeverRequired(formData: map<string, string>)
    ensures OptionalPoaField in PoaFields
    ensures !Missing(PowerOfAttorney, formData, OptionalPoaField)
  {
    assert PoaFields[6] == OptionalPoaField;
  }

  /**
   * The `forEach` of `validateForm`: a fresh error map holding exactly the
   * fields the page's rule rejects, each with the required-field message.
   */
  method CollectErrors(kind: DocKind, formData: map<string, string>) returns (newErrors: map<string, Option<string>>)
    ensures forall name :: name in newErrors <==> name in Fields(kind) && Missing(kind, formData, name)
    ensures forall name :: name in newErrors ==> newErrors[name] == Some(Required)
  {
    var fields := Fields(kind);
    newErrors := map[];
    for i := 0 to |fields|
      invariant forall name :: name in newErrors <==> name in fields[..i] && Missing(kind, formData, name)
      invariant forall name :: name in newErrors ==> newErrors[name] == Some(Required)
    {
      assert fields[..i + 1] == fields[..i] + [fields[i]];
      if Missing(kind, formData, fields[i]) {
        newErrors := newErrors[fields[i] := Some(Required)];
      }
    }
    assert fields[..|fields|] == fields;
  }

  /** A map with no keys is empty. */
  lemma EmptyMap(m: map<string, Option<string>>)
    ensures |m| == 0 <==> forall k :: k !in m
  {
    if |m| != 0 {
      var k :| k in m;
    } else {
      assert m.Keys == {};
    }
  }

  /** What `res.data?.pdf_base64 || null` yields once the preview request has settled. */
  datatype PostOutcome =
    | Responded(pdfBase64: Option<string>)
    | Failed

  /** The text kept as the preview: the response's non-empty `pdf_base64`, otherwise null. */
  function PreviewOf(outcome: PostOutcome): (preview: Option<string>)
    ensures preview.Some? <==> outcome.Responded? && outcome.pdfBase64.Some? && outcome.pdfBase64.value != ""
    ensures preview.Some? ==> preview == outcome.pdfBase64
  {
    match outcome
    case Responded(Some(text)) => if text != "" then Some(text) else None
    case _ => None
  }

  /** The body posted to the backend. */
  datatype Request = Request(docType: string, data: map<string, string>)

  class FormPage {
    const kind: DocKind
    var formData: map<string, string>
    var errors: map<string, Option<string>>
    var isSubmitting: bool
    var previewB64: Option<string>
    var finalReady: bool

    constructor (kind: DocKind)
      ensures this.kind == kind
      ensures formData == map[] && errors == map[]
      ensures !isSubmitting && previewB64 == None && !finalReady
    {
      this.kind := kind;
      formData, errors := map[], map[];
      isSubmitting, previewB64, finalReady := false, None, false;
    }

    /** `errors[name]` is truthy: a non-empty message is recorded for the field. */
    predicate ErrorShown(name: string)
      reads this
    {
      name in errors && errors[name].Some? && errors[name].value != ""
    }

    /** The errors are exactly the fields the page's rule rejects, with the required-field message. */
    ghost predicate ErrorsMatchForm()
      reads this
    {
      (forall name :: name in errors <==> name in Fields(kind) && Missing(kind, formData, name))
      && (forall name :: name in errors ==> errors[name] == Some(Required))
    }

    /** Every field passes the page's rule. */
    ghost predicate Complete()
      reads this
    {
      forall name :: name in Fields(kind) ==> !Missing(kind, formData, name)
    }

    /**
     * `handleInputChange`: the field takes the new value and no other field
     * changes; its error is set to null only if one was shown.
     */
    method HandleInputChange(name: string, value: string)
      modifies this
      ensures formData == old(formData)[name := value]
      ensures old(ErrorShown(name)) ==> errors == old(errors)[name := None]
      ensures !old(ErrorShown(name)) ==> errors == old(errors)
      ensures isSubmitting == old(isSubmitting) && previewB64 == old(previewB64) && finalReady == old(finalReady)
    {
      var shown := ErrorShown(name);
      formData := formData[name := value];
      if shown {
        errors := errors[name := None];
      }
    }

    /**
     * `validateForm`: the error map is replaced by one naming exactly the
     * rejected fields, and the form is valid iff there are none.
     */
    method ValidateForm() returns (valid: bool)
      modifies this
      ensures ErrorsMatchForm()
      ensures valid <==> Complete()
      ensures valid <==> errors == map[]
      ensures formData == old(formData)
      ensures isSubmitting == old(isSubmitting) && previewB64 == old(previewB64) && finalReady == old(finalReady)
    {
      var newErrors := CollectErrors(kind, formData);
      errors := newErrors;
      valid := |newErrors| == 0;
      EmptyMap(newErrors);
    }

    /**
     * The synchronous part of `handleSubmit`: an invalid form stops after
     * validation with no request; a valid one marks the request in flight,
     * withdraws the final-download flag and posts the form.
     */
    method HandleSubmit() returns (request: Option<Request>)
      modifies this
      ensures ErrorsMatchForm()
      ensures request.Some? <==> Complete()
      ensures request.Some? ==> request.value == Request(DocTypeName(kind), formData)
      ensures request.Some? ==> isSubmitting && !finalReady
      ensures request.None? ==> isSubmitting == old(isSubmitting) && finalReady == old(finalReady)
      ensures formData == old(formData) && previewB64 == old(previewB64)
    {
      var valid := ValidateForm();
      if !valid {
        return None;
      }
      isSubmitting, finalReady := true, false;
      request := Some(Request(DocTypeName(kind), formData));
    }

    /**
     * The rest of `handleSubmit`, once the request settles: the preview is
     * the response's `pdf_base64` (null when absent or on failure), and the
     * request is no longer in flight.
     */
    method SubmitSettled(outcome: PostOutcome)
      modifies this
      ensures previewB64 == PreviewOf(outcome)
      ensures !isSubmitting
      ensures formData == old(formData) && errors == old(errors) && finalReady == old(finalReady)
    {
      previewB64 := PreviewOf(outcome);
      isSubmitting := false;
    }

    /**
     * `handlePay`: posts the form for the final document; the download
     * completing sets `finalReady`, and the preview is dropped either way.
     */
    method HandlePay(downloaded: bool) returns (request: Request)
      modifies this
      ensures request == Request(DocTypeName(kind), old(formData))
      ensures finalReady == (old(finalReady) || downloaded)
      ensures previewB64 == None
      ensures formData == old(formData) && errors == old(errors) && isSubmitting == old(isSubmitting)
    {
      request := Request(DocTypeName(kind), formData);
      if downloaded {
        finalReady := true;
      }
      previewB64 := None;
    }
  }

  /**
   * Submitting an untouched page posts nothing, reports every required
   * field of the page, and leaves the flags as they were.
   */
  method SubmitBlank(kind: DocKind) returns (request: Option<Request>, reported: set<string>, submitting: bool)
    ensures request == None && !submitting
    ensures reported == set name | name in Fields(kind) && (kind == Will || name != OptionalPoaField)
  {
    var page := new FormPage(kind);
    request := page.HandleSubmit();
    if kind == PowerOfAttorney {
      assert PoaFields[0] in Fields(kind) && Missing(kind, map[], PoaFields[0]);
    } else {
      assert WillFields[0] in Fields(kind) && Missing(kind, map[], WillFields[0]);
    }
    reported, submitting := page.errors.Keys, page.isSubmitting;
  }

  /**
   * A complete form's round: the preview request goes out with the form,
   * the preview follows its response, and paying then drops the preview and
   * records whether the download succeeded.
   */
  method PreviewThenPay(page: FormPage, outcome: PostOutcome, downloaded: bool)
    returns (request: Option<Request>, preview: Option<string>)
    requires page.Complete()
    modifies page
    ensures request == Some(Request(DocTypeName(page.kind), old(page.formData)))
    ensures preview == PreviewOf(outcome)
    ensures page.previewB64 == None && page.finalReady == downloaded && !page.isSubmitting
    ensures page.formData == old(page.formData)
  {
    request := page.HandleSubmit();
    page.SubmitSettled(outcome);
    preview := page.previewB64;
    var _ := page.HandlePay(downloaded);
  }
}
