/**
  The request and response models of app/schemas/translation.py. A request or
  response body is a JSON object: a map from keys to values. A model lists its
  fields; each field is required, a string field may carry `min_length` and
  `max_length` bounds counted in characters, and keys the model does not
  declare are ignored. Validation reports one error per failing field, in the
  order the fields are declared.
 */
module Schemas {
  import opened Wrappers

  /** A value of a decoded body. */
  datatype Value = Str(s: string) | Bytes(b: seq<bv8>) | Other

  type Body = map<string, Value>

  datatype FieldKind = StrField(minLength: nat, maxLength: Option<nat>) | BytesField

  datatype Field = Field(name: string, kind: FieldKind)

  datatype Issue = Missing | NotAString | NotBytes | TooShort(minLength: nat) | TooLong(maxLength: nat)

  datatype FieldError = FieldError(field: string, issue: Issue)

  /** The declarative rule: the field is present, of its type and within its bounds. */
  predicate Conforms(body: Body, f: Field) {
    f.name in body &&
    match f.kind
    case StrField(lo, hi) =>
      body[f.name].Str? && lo <= |body[f.name].s| && (hi.Some? ==> |body[f.name].s| <= hi.value)
    case BytesField => body[f.name].Bytes?
  }

  /** The check of one field, reporting the first rule it breaks. */
  function CheckField(body: Body, f: Field): (r: Option<Issue>)
    ensures r.None? <==> Conforms(body, f)
    ensures r == Some(Missing) <==> f.name !in body
  {
    if f.name !in body then Some(Missing)
    else
      match f.kind
      case StrField(lo, hi) =>
        (match body[f.name]
         case Str(s) =>
           if |s| < lo then Some(TooShort(lo))
           else if hi.Some? && |s| > hi.value then Some(TooLong(hi.value))
           else None
         case _ => Some(NotAString))
      case BytesField => if body[f.name].Bytes? then None else Some(NotBytes)
  }

  /** The errors of `body` against `fields`: one per failing field, in declaration order (`ErrorsInOrder`). */
  function Errors(body: Body, fields: seq<Field>): (errs: seq<FieldError>)
    ensures errs == [] <==> forall k :: 0 <= k < |fields| ==> Conforms(body, fields[k])
    ensures |errs| <= |fields|
    ensures forall e :: e in errs ==> exists k :: 0 <= k < |fields| && fields[k].name == e.field && CheckField(body, fields[k]) == Some(e.issue)
  {
    if fields == [] then []
    else
      var rest := Errors(body, fields[1..]);
      assert forall k :: 0 < k < |fields| ==> fields[1..][k - 1] == fields[k];
      match CheckField(body, fields[0])
      case None => rest
      case Some(issue) => [FieldError(fields[0].name, issue)] + rest
  }

  // ---------------------------------------------------------------------------
  // The six models

  const Unbounded := StrField(0, None)

  const TranslationRequestFields: seq<Field> := [
    Field("text", Unbounded), Field("source_lang", Unbounded), Field("target_lang", Unbounded),
    Field("tone", Unbounded), Field("domain", Unbounded)]

  const ImageTranslationRequestFields: seq<Field> := [
    Field("image", BytesField), Field("source_lang", Unbounded), Field("target_lang", Unbounded),
    Field("tone", Unbounded), Field("domain", Unbounded)]

  const TranslationResponseFields: seq<Field> := [Field("translated_text", Unbounded)]

  const LanguageDetectionRequestFields: seq<Field> := [Field("text", StrField(1, Some(5000)))]

  const LanguageDetectionResponseFields: seq<Field> := [Field("detected_language", StrField(2, Some(5)))]

  const ErrorResponseFields: seq<Field> := [Field("detail", Unbounded)]

  predicate IsStr(body: Body, key: string) {
    key in body && body[key].Str?
  }

  datatype TranslationRequest = TranslationRequest(text: string, sourceLang: string, targetLang: string, tone: string, domain: string)

  datatype ImageTranslationRequest = ImageTranslationRequest(image: seq<bv8>, sourceLang: string, targetLang: string, tone: string, domain: string)

  datatype TranslationResponse = TranslationResponse(translatedText: string)

  datatype LanguageDetectionRequest = LanguageDetectionRequest(text: string)

  datatype LanguageDetectionResponse = LanguageDetectionResponse(detectedLanguage: string)

  datatype ErrorResponse = ErrorResponse(detail: string)

  /** `TranslationRequest`: five required strings, no length bound. */
  function ParseTranslationRequest(body: Body): (r: Result<TranslationRequest, seq<FieldError>>)
    ensures r.Ok? <==> IsStr(body, "text") && IsStr(body, "source_lang") && IsStr(body, "target_lang") && IsStr(body, "tone") && IsStr(body, "domain")
    ensures r.Ok? ==> r.value == TranslationRequest(body["text"].s, body["source_lang"].s, body["target_lang"].s, body["tone"].s, body["domain"].s)
    ensures r.Err? ==> r.error == Errors(body, TranslationRequestFields) && r.error != []
  {
    var errs := Errors(body, TranslationRequestFields);
    if errs != [] then Err(errs)
    else
      assert Conforms(body, TranslationRequestFields[0]) && Conforms(body, TranslationRequestFields[1]) && Conforms(body, TranslationRequestFields[2]);
      assert Conforms(body, TranslationRequestFields[3]) && Conforms(body, TranslationRequestFields[4]);
      Ok(TranslationRequest(body["text"].s, body["source_lang"].s, body["target_lang"].s, body["tone"].s, body["domain"].s))
  }

  /** `ImageTranslationRequest`: image bytes and four required strings. */
  function ParseImageTranslationRequest(body: Body): (r: Result<ImageTranslationRequest, seq<FieldError>>)
    ensures r.Ok? <==> ("image" in body && body["image"].Bytes?) && IsStr(body, "source_lang") && IsStr(body, "target_lang") && IsStr(body, "tone") && IsStr(body, "domain")
    ensures r.Ok? ==> r.value == ImageTranslationRequest(body["image"].b, body["source_lang"].s, body["target_lang"].s, body["tone"].s, body["domain"].s)
    ensures r.Err? ==> r.error == Errors(body, ImageTranslationRequestFields) && r.error != []
  {
    var errs := Errors(body, ImageTranslationRequestFields);
    if errs != [] then Err(errs)
    else
      assert Conforms(body, ImageTranslationRequestFields[0]) && Conforms(body, ImageTranslationRequestFields[1]) && Conforms(body, ImageTranslationRequestFields[2]);
      assert Conforms(body, ImageTranslationRequestFields[3]) && Conforms(body, ImageTranslationRequestFields[4]);
      Ok(ImageTranslationRequest(body["image"].b, body["source_lang"].s, body["target_lang"].s, body["tone"].s, body["domain"].s))
  }

  /** `TranslationResponse`: a required `translated_text` string. */
  function ParseTranslationResponse(body: Body): (r: Result<TranslationResponse, seq<FieldError>>)
    ensures r.Ok? <==> IsStr(body, "translated_text")
    ensures r.Ok? ==> r.value == TranslationResponse(body["translated_text"].s)
    ensures r.Err? ==> r.error == Errors(body, TranslationResponseFields) && r.error != []
  {
    var errs := Errors(body, TranslationResponseFields);
    if errs != [] then Err(errs)
    else
      assert Conforms(body, TranslationResponseFields[0]);
      Ok(TranslationResponse(body["translated_text"].s))
  }

  /** `LanguageDetectionRequest`: a required `text` of 1 to 5000 characters. */
  function ParseLanguageDetectionRequest(body: Body): (r: Result<LanguageDetectionRequest, seq<FieldError>>)
    ensures r.Ok? <==> IsStr(body, "text") && 1 <= |body["text"].s| <= 5000
    ensures r.Ok? ==> r.value == LanguageDetectionRequest(body["text"].s)
    ensures r.Err? ==> r.error == Errors(body, LanguageDetectionRequestFields) && r.error != []
  {
    var errs := Errors(body, LanguageDetectionRequestFields);
    if errs != [] then Err(errs)
    else
      assert Conforms(body, LanguageDetectionRequestFields[0]);
      Ok(LanguageDetectionRequest(body["text"].s))
  }

  /** `LanguageDetectionResponse`: a required `detected_language` of 2 to 5 characters. */
  function ParseLanguageDetectionResponse(body: Body): (r: Result<LanguageDetectionResponse, seq<FieldError>>)
    ensures r.Ok? <==> IsStr(body, "detected_language") && 2 <= |body["detected_language"].s| <= 5
    ensures r.Ok? ==> r.value == LanguageDetectionResponse(body["detected_language"].s)
    ensures r.Err? ==> r.error == Errors(body, LanguageDetectionResponseFields) && r.error != []
  {
    var errs := Errors(body, LanguageDetectionResponseFields);
    if errs != [] then Err(errs)
    else
      assert Conforms(body, LanguageDetectionResponseFields[0]);
      Ok(LanguageDetectionResponse(body["detected_language"].s))
  }

  /** `ErrorResponse`: a required `detail` string. */
  function ParseErrorResponse(body: Body): (r: Result<ErrorResponse, seq<FieldError>>)
    ensures r.Ok? <==> IsStr(body, "detail")
    ensures r.Ok? ==> r.value == ErrorResponse(body["detail"].s)
    ensures r.Err? ==> r.error == Errors(body, ErrorResponseFields) && r.error != []
  {
    var errs := Errors(body, ErrorResponseFields);
    if errs != [] then Err(errs)
    else
      assert Conforms(body, ErrorResponseFields[0]);
      Ok(ErrorResponse(body["detail"].s))
  }

  // ---------------------------------------------------------------------------

  /** Every failing field is reported, with the rule it breaks. */
  lemma {:induction false} ErrorsReportEveryFailure(body: Body, fields: seq<Field>, k: int)
    requires 0 <= k < |fields| && !Conforms(body, fields[k])
    ensures FieldError(fields[k].name, CheckField(body, fields[k]).value) in Errors(body, fields)
    decreases k
  {
    if k > 0 {
      assert fields[1..][k - 1] == fields[k];
      ErrorsReportEveryFailure(body, fields[1..], k - 1);
    }
  }

  /** `errs[i]` is the error of the field at index `idx[i]`, with the rule that field breaks. */
  predicate ReportsAt(body: Body, fields: seq<Field>, errs: seq<FieldError>, idx: seq<int>) {
    && |idx| == |errs|
    && forall i :: 0 <= i < |idx| ==>
         && 0 <= idx[i] < |fields|
         && CheckField(body, fields[idx[i]]).Some?
         && errs[i] == FieldError(fields[idx[i]].name, CheckField(body, fields[idx[i]]).value)
  }

  predicate Increasing(idx: seq<int>) {
    forall i, j :: 0 <= i < j < |idx| ==> idx[i] < idx[j]
  }

  /** Every field from index `from` on that is at no index of `idx` conforms. */
  predicate OthersConform(body: Body, fields: seq<Field>, idx: seq<int>, from: int) {
    forall k :: 0 <= k < |fields| && from <= k && k !in idx ==> Conforms(body, fields[k])
  }

  /**
    `errs` are the errors of the fields at the strictly increasing indices `idx`,
    and every other field conforms.
   */
  predicate ReportsInOrder(body: Body, fields: seq<Field>, errs: seq<FieldError>, idx: seq<int>) {
    ReportsAt(body, fields, errs, idx) && Increasing(idx) && OthersConform(body, fields, idx, 0)
  }

  /** One error per failing field, in the order the fields are declared, and no other. */
  lemma {:induction false} ErrorsInOrder(body: Body, fields: seq<Field>)
    ensures exists idx :: ReportsInOrder(body, fields, Errors(body, fields), idx)
  {
    if fields == [] {
      var none: seq<int> := [];
      assert Errors(body, fields) == [];
      assert ReportsInOrder(body, fields, Errors(body, fields), none);
    } else {
      ErrorsInOrder(body, fields[1..]);
      var idx' :| ReportsInOrder(body, fields[1..], Errors(body, fields[1..]), idx');
      var shifted := Shift(idx');
      ShiftReports(body, fields, idx');
      ShiftOthers(body, fields, idx');
      if CheckField(body, fields[0]).None? {
        ReportsConforming(body, fields, shifted);
      } else {
        ReportsFailing(body, fields, shifted);
      }
    }
  }

  /** The indices of a tail, as indices of the whole sequence. */
  function Shift(idx: seq<int>): (r: seq<int>)
    ensures |r| == |idx| && forall i :: 0 <= i < |idx| ==> r[i] == idx[i] + 1
  {
    seq(|idx|, i requires 0 <= i < |idx| => idx[i] + 1)
  }

  lemma ShiftReports(body: Body, fields: seq<Field>, idx': seq<int>)
    requires fields != []
    requires ReportsAt(body, fields[1..], Errors(body, fields[1..]), idx') && Increasing(idx')
    ensures ReportsAt(body, fields, Errors(body, fields[1..]), Shift(idx')) && Increasing(Shift(idx'))
    ensures forall i :: 0 <= i < |idx'| ==> Shift(idx')[i] >= 1
  {
    var shifted := Shift(idx');
    forall i | 0 <= i < |idx'| ensures fields[shifted[i]] == fields[1..][idx'[i]] { }
  }

  lemma ShiftOthers(body: Body, fields: seq<Field>, idx': seq<int>)
    requires fields != []
    requires OthersConform(body, fields[1..], idx', 0)
    ensures OthersConform(body, fields, Shift(idx'), 1)
  {
    var shifted := Shift(idx');
    forall k | 1 <= k < |fields| && k !in shifted ensures Conforms(body, fields[k]) {
      assert fields[k] == fields[1..][k - 1];
    }
  }

  /** The step of `ErrorsInOrder` when the first field conforms: the tail's indices serve. */
  lemma ReportsConforming(body: Body, fields: seq<Field>, shifted: seq<int>)
    requires fields != [] && CheckField(body, fields[0]).None?
    requires ReportsAt(body, fields, Errors(body, fields[1..]), shifted) && Increasing(shifted)
    requires OthersConform(body, fields, shifted, 1)
    ensures ReportsInOrder(body, fields, Errors(body, fields), shifted)
  {
    assert Errors(body, fields) == Errors(body, fields[1..]);
  }

  /** The step of `ErrorsInOrder` when the first field fails: index 0 comes first. */
  lemma ReportsFailing(body: Body, fields: seq<Field>, shifted: seq<int>)
    requires fields != [] && CheckField(body, fields[0]).Some?
    requires ReportsAt(body, fields, Errors(body, fields[1..]), shifted) && Increasing(shifted)
    requires forall i :: 0 <= i < |shifted| ==> shifted[i] >= 1
    requires OthersConform(body, fields, shifted, 1)
    ensures ReportsInOrder(body, fields, Errors(body, fields), [0] + shifted)
  {
    var e := FieldError(fields[0].name, CheckField(body, fields[0]).value);
    assert Errors(body, fields) == [e] + Errors(body, fields[1..]);
    ReportsCons(body, fields, e, Errors(body, fields[1..]), shifted);
    IncreasingCons(shifted);
    OthersCons(body, fields, shifted);
  }

  lemma ReportsCons(body: Body, fields: seq<Field>, e: FieldError, rest: seq<FieldError>, shifted: seq<int>)
    requires fields != [] && CheckField(body, fields[0]).Some?
    requires e == FieldError(fields[0].name, CheckField(body, fields[0]).value)
    requires ReportsAt(body, fields, rest, shifted)
    ensures ReportsAt(body, fields, [e] + rest, [0] + shifted)
  {
    var idx := [0] + shifted;
    var errs := [e] + rest;
    forall i | 1 <= i < |idx| ensures idx[i] == shifted[i - 1] && errs[i] == rest[i - 1] { }
  }

  lemma IncreasingCons(shifted: seq<int>)
    requires Increasing(shifted)
    requires forall i :: 0 <= i < |shifted| ==> shifted[i] >= 1
    ensures Increasing([0] + shifted)
  {
    var idx := [0] + shifted;
    forall i | 1 <= i < |idx| ensures idx[i] == shifted[i - 1] { }
  }

  lemma OthersCons(body: Body, fields: seq<Field>, shifted: seq<int>)
    requires OthersConform(body, fields, shifted, 1)
    ensures OthersConform(body, fields, [0] + shifted, 0)
  {
    forall k | 0 <= k < |fields| && k !in [0] + shifted ensures Conforms(body, fields[k]) {
      assert k != 0 && k !in shifted;
    }
  }

  /** Two bodies that agree on the declared fields. */
  predicate AgreeOn(body1: Body, body2: Body, fields: seq<Field>) {
    forall k :: 0 <= k < |fields| ==>
      (fields[k].name in body1 <==> fields[k].name in body2) &&
      (fields[k].name in body1 ==> body1[fields[k].name] == body2[fields[k].name])
  }

  /** Undeclared keys and their values never change the errors. */
  lemma {:induction false} ErrorsIgnoreUndeclared(body1: Body, body2: Body, fields: seq<Field>)
    requires AgreeOn(body1, body2, fields)
    ensures Errors(body1, fields) == Errors(body2, fields)
  {
    if fields != [] {
      assert AgreeOn(body1, body2, fields[1..]) by {
        forall k | 0 <= k < |fields| - 1 ensures fields[1..][k] == fields[k + 1] { }
      }
      ErrorsIgnoreUndeclared(body1, body2, fields[1..]);
      assert CheckField(body1, fields[0]) == CheckField(body2, fields[0]);
    }
  }

  lemma AgreeWithExtra(body: Body, extra: Body, fields: seq<Field>)
    requires forall k :: 0 <= k < |fields| ==> fields[k].name !in extra
    ensures AgreeOn(body + extra, body, fields)
  {
  }

  /** Extra keys are ignored: adding keys the model does not declare changes nothing. */
  lemma TranslationRequestIgnoresExtraKeys(body: Body, extra: Body)
    requires forall k :: 0 <= k < |TranslationRequestFields| ==> TranslationRequestFields[k].name !in extra
    ensures ParseTranslationRequest(body + extra) == ParseTranslationRequest(body)
  {
    AgreeWithExtra(body, extra, TranslationRequestFields);
    assert TranslationRequestFields[0].name !in extra && TranslationRequestFields[1].name !in extra;
    assert TranslationRequestFields[2].name !in extra && TranslationRequestFields[3].name !in extra;
    assert TranslationRequestFields[4].name !in extra;
    ErrorsIgnoreUndeclared(body + extra, body, TranslationRequestFields);
  }

  lemma ImageTranslationRequestIgnoresExtraKeys(body: Body, extra: Body)
    requires forall k :: 0 <= k < |ImageTranslationRequestFields| ==> ImageTranslationRequestFields[k].name !in extra
    ensures ParseImageTranslationRequest(body + extra) == ParseImageTranslationRequest(body)
  {
    AgreeWithExtra(body, extra, ImageTranslationRequestFields);
    assert ImageTranslationRequestFields[0].name !in extra && ImageTranslationRequestFields[1].name !in extra;
    assert ImageTranslationRequestFields[2].name !in extra && ImageTranslationRequestFields[3].name !in extra;
    assert ImageTranslationRequestFields[4].name !in extra;
    ErrorsIgnoreUndeclared(body + extra, body, ImageTranslationRequestFields);
  }

  lemma LanguageDetectionRequestIgnoresExtraKeys(body: Body, extra: Body)
    requires "text" !in extra
    ensures ParseLanguageDetectionRequest(body + extra) == ParseLanguageDetectionRequest(body)
  {
  }

  /** No length bound applies to the text of a `TranslationRequest`: the empty string is accepted. */
  lemma EmptyTextIsTranslatable(source: string, target: string, tone: string, domain: string)
    ensures ParseTranslationRequest(map["text" := Str(""), "source_lang" := Str(source), "target_lang" := Str(target),
      "tone" := Str(tone), "domain" := Str(domain)]) == Ok(TranslationRequest("", source, target, tone, domain))
  {
  }

  /** A request without `target_lang` is refused with that field reported missing. */
  lemma MissingTargetLang(text: string, source: string, tone: string, domain: string)
    ensures var r := ParseTranslationRequest(map["text" := Str(text), "source_lang" := Str(source), "tone" := Str(tone), "domain" := Str(domain)]);
      r.Err? && FieldError("target_lang", Missing) in r.error
  {
    var body := map["text" := Str(text), "source_lang" := Str(source), "tone" := Str(tone), "domain" := Str(domain)];
    assert TranslationRequestFields[2].name == "target_lang" && "target_lang" !in body;
    ErrorsReportEveryFailure(body, TranslationRequestFields, 2);
  }

  /** Language detection refuses empty text and text over 5000 characters, with the bound broken. */
  lemma DetectionTextBounds(text: string)
    ensures var r := ParseLanguageDetectionRequest(map["text" := Str(text)]);
      (text == [] ==> r == Err([FieldError("text", TooShort(1))])) &&
      (|text| > 5000 ==> r == Err([FieldError("text", TooLong(5000))])) &&
      (1 <= |text| <= 5000 ==> r == Ok(LanguageDetectionRequest(text)))
  {
    var body := map["text" := Str(text)];
    assert LanguageDetectionRequestFields[1..] == [];
    assert Errors(body, LanguageDetectionRequestFields) ==
      match CheckField(body, LanguageDetectionRequestFields[0])
      case None => []
      case Some(issue) => [FieldError("text", issue)];
  }
}
