/**
 * app/services/llm_service.py, `parse_resume_with_llm` after the model has
 * answered (lines 289-342): the answer's content is flattened to text, the
 * JSON object is cut out and decoded, the template is merged in, the string
 * lists and links are normalised, and the record is validated. Every
 * failure surfaces as a `ParsingError` with one of four messages.
 */
module Pipeline {
  import opened Json
  import opened Outcomes
  import opened Strings
  import opened Validators
  import opened ResponseText
  import opened DefaultMerge
  import opened StringArrays
  import opened Urls

  const EmptyResponse := "Empty response from LLM"
  const InvalidJson := "Invalid JSON response from LLM"
  const SchemaFailed := "Schema validation failed"
  const ParseFailed := "LLM parsing failed"

  /**
   * What `json.loads` does with a text: return a value, raise
   * `JSONDecodeError`, or raise anything else (a `RecursionError` on deeply
   * nested input, say).
   */
  datatype Loaded = Loaded(value: JValue) | DecodeError | LoadRaised

  /**
   * What `ResumeSchema.model_validate` does with a record: accept it, raise
   * `ValidationError`, or raise anything else.
   */
  datatype Verdict = Accepted | Refused | ValidateRaised

  /**
   * The library calls the pipeline makes and the model does not look inside:
   * `json.dumps`, Python's `str()`, `json.loads` and the schema check of
   * `ResumeSchema.model_validate`.
   */
  datatype Library = Library(
    dumps: JValue -> string,
    str: JValue -> string,
    loads: string -> Loaded,
    validate: map<string, JValue> -> Verdict)

  /** The record the three post-processing steps make of a decoded payload (lines 309-311). */
  function NormalizedRecord(payload: map<string, JValue>, str: JValue -> string): map<string, JValue> {
    NormalizedUrls(NormalizedArrays(MergeInto(DefaultTemplate, payload), str))
  }

  /** The text the pipeline hands to `json.loads` (lines 295 and 300). */
  function JsonText(content: JValue, lib: Library): string {
    ExtractJsonString(CoercedText(content, lib.dumps, lib.str))
  }

  /**
   * The outcome of lines 301-312 for the extracted text, with the handlers
   * of lines 315-342. A decoded value that is not an object makes
   * `_merge_defaults` fail on `.items()`; that, and any exception of `loads`
   * or `model_validate` other than the two they are expected to raise, is
   * reported by the last handler as a general parsing failure.
   */
  function Decoded(jsonStr: string, lib: Library): Result<map<string, JValue>, ParsingError> {
    if jsonStr == "" then Err(ParsingError(EmptyResponse))
    else
      match lib.loads(jsonStr)
      case DecodeError => Err(ParsingError(InvalidJson))
      case LoadRaised => Err(ParsingError(ParseFailed))
      case Loaded(parsed) =>
        if !parsed.JObj? then Err(ParsingError(ParseFailed))
        else
          var record := NormalizedRecord(parsed.fields, lib.str);
          match lib.validate(record)
          case Accepted => Ok(record)
          case Refused => Err(ParsingError(SchemaFailed))
          case ValidateRaised => Err(ParsingError(ParseFailed))
  }

  /** The outcome of lines 289-342 for the content of the model's answer. */
  function ParseOutcome(content: JValue, lib: Library): Result<map<string, JValue>, ParsingError> {
    Decoded(JsonText(content, lib), lib)
  }

  /** Lines 289-342, step by step. */
  method ParseLlmContent(content: JValue, lib: Library) returns (r: Result<map<string, JValue>, ParsingError>)
    ensures r == ParseOutcome(content, lib)
  {
    var text := CoerceToText(content, lib.dumps, lib.str);
    var jsonStr := ExtractJsonString(text);
    r := DecodeText(jsonStr, lib);
  }

  /** Lines 301-342, step by step, for the extracted text. */
  method DecodeText(jsonStr: string, lib: Library) returns (r: Result<map<string, JValue>, ParsingError>)
    ensures r == Decoded(jsonStr, lib)
  {
    if jsonStr == "" {
      return Err(ParsingError(EmptyResponse));
    }
    var parsed := lib.loads(jsonStr);
    if parsed.DecodeError? {
      return Err(ParsingError(InvalidJson));
    }
    if parsed.LoadRaised? || !parsed.value.JObj? {
      return Err(ParsingError(ParseFailed));
    }
    var merged := MergeDefaults(parsed.value.fields);
    var normalized := NormalizeStringArrays(merged, lib.str);
    normalized := NormalizeUrlsInData(normalized);
    var verdict := lib.validate(normalized);
    if verdict.Refused? {
      return Err(ParsingError(SchemaFailed));
    }
    if verdict.ValidateRaised? {
      return Err(ParsingError(ParseFailed));
    }
    return Ok(normalized);
  }

  /** The four messages are pairwise different, so each outcome can be told apart by its message. */
  lemma MessagesDiffer()
    ensures EmptyResponse != InvalidJson && EmptyResponse != ParseFailed && EmptyResponse != SchemaFailed
    ensures InvalidJson != ParseFailed && InvalidJson != SchemaFailed
    ensures ParseFailed != SchemaFailed
  {
    assert |EmptyResponse| == 23 && |InvalidJson| == 30 && |ParseFailed| == 18 && |SchemaFailed| == 24;
  }

  /** Blank extracted text is reported as an empty response, and only that. */
  lemma EmptyResponseWhenBlank(content: JValue, lib: Library)
    ensures ParseOutcome(content, lib) == Err(ParsingError(EmptyResponse)) <==> JsonText(content, lib) == ""
  {
    DecodedEmpty(JsonText(content, lib), lib);
  }

  lemma DecodedEmpty(jsonStr: string, lib: Library)
    ensures Decoded(jsonStr, lib) == Err(ParsingError(EmptyResponse)) <==> jsonStr == ""
  {
    MessagesDiffer();
  }

  /** Text on which `json.loads` raises `JSONDecodeError` is reported as invalid JSON, and only that. */
  lemma InvalidJsonWhenUndecodable(content: JValue, lib: Library)
    ensures ParseOutcome(content, lib) == Err(ParsingError(InvalidJson)) <==>
      JsonText(content, lib) != "" && lib.loads(JsonText(content, lib)).DecodeError?
  {
    DecodedInvalid(JsonText(content, lib), lib);
  }

  lemma DecodedInvalid(jsonStr: string, lib: Library)
    ensures Decoded(jsonStr, lib) == Err(ParsingError(InvalidJson)) <==> jsonStr != "" && lib.loads(jsonStr).DecodeError?
  {
    MessagesDiffer();
  }

  /**
   * The cases the last handler (lines 333-342) reports as a general parsing
   * failure: `json.loads` raising something other than `JSONDecodeError`,
   * decoded JSON that is not an object (a list, a string, a number), or
   * `model_validate` raising something other than `ValidationError`.
   */
  predicate Unhandled(jsonStr: string, lib: Library) {
    jsonStr != "" &&
    match lib.loads(jsonStr)
    case DecodeError => false
    case LoadRaised => true
    case Loaded(parsed) =>
      !parsed.JObj? || lib.validate(NormalizedRecord(parsed.fields, lib.str)).ValidateRaised?
  }

  /** The general parsing failure is reported in exactly those cases. */
  lemma ParseFailedWhenUnhandled(content: JValue, lib: Library)
    ensures ParseOutcome(content, lib) == Err(ParsingError(ParseFailed)) <==> Unhandled(JsonText(content, lib), lib)
  {
    DecodedParseFailed(JsonText(content, lib), lib);
  }

  lemma DecodedParseFailed(jsonStr: string, lib: Library)
    ensures Decoded(jsonStr, lib) == Err(ParsingError(ParseFailed)) <==> Unhandled(jsonStr, lib)
  {
    MessagesDiffer();
  }

  /** Valid JSON that is not an object ends in the general failure. */
  lemma ParseFailedWhenNotObject(content: JValue, lib: Library, parsed: JValue)
    requires JsonText(content, lib) != "" && lib.loads(JsonText(content, lib)) == Loaded(parsed) && !parsed.JObj?
    ensures ParseOutcome(content, lib) == Err(ParsingError(ParseFailed))
  {
  }

  /**
   * A decoded object whose normalised record the schema refuses is reported
   * as a validation failure, one it accepts is the result, and any other
   * exception of the schema check is a general failure.
   */
  lemma SchemaFailedWhenRefused(content: JValue, lib: Library, payload: map<string, JValue>)
    requires JsonText(content, lib) != "" && lib.loads(JsonText(content, lib)) == Loaded(JObj(payload))
    ensures ParseOutcome(content, lib) == Err(ParsingError(SchemaFailed)) <==>
      lib.validate(NormalizedRecord(payload, lib.str)) == Refused
    ensures ParseOutcome(content, lib) == Err(ParsingError(ParseFailed)) <==>
      lib.validate(NormalizedRecord(payload, lib.str)) == ValidateRaised
    ensures ParseOutcome(content, lib).Ok? <==> lib.validate(NormalizedRecord(payload, lib.str)) == Accepted
  {
    MessagesDiffer();
  }

  /** Every failure carries one of the four messages. */
  lemma FailureMessages(content: JValue, lib: Library)
    ensures ParseOutcome(content, lib).Err? ==>
      ParseOutcome(content, lib).error.message in {EmptyResponse, InvalidJson, ParseFailed, SchemaFailed}
  {
    DecodedMessages(JsonText(content, lib), lib);
  }

  lemma DecodedMessages(jsonStr: string, lib: Library)
    ensures Decoded(jsonStr, lib).Err? ==>
      Decoded(jsonStr, lib).error.message in {EmptyResponse, InvalidJson, ParseFailed, SchemaFailed}
  {
  }

  /** Content that flattens to blank text is rejected as an empty response. */
  lemma BlankResponseRejected(content: JValue, lib: Library)
    requires AllSpace(CoercedText(content, lib.dumps, lib.str))
    ensures ParseOutcome(content, lib) == Err(ParsingError(EmptyResponse))
  {
    BlankExtractsEmpty(CoercedText(content, lib.dumps, lib.str));
  }

  /** The normalised record keeps every top-level key of the template. */
  lemma NormalizedRecordKeys(payload: map<string, JValue>, str: JValue -> string)
    ensures DefaultTemplate.Keys + payload.Keys == NormalizedRecord(payload, str).Keys
  {
    var merged := MergeInto(DefaultTemplate, payload);
    MergeKeys(DefaultTemplate, payload);
    NormalizedArraysKeys(merged, str);
    NormalizedUrlsKeys(NormalizedArrays(merged, str));
  }

  /**
   * A parsed record has every top-level key of the template and of the
   * payload, every link in it is `None` or a URL with a protocol, and it
   * passed the schema check.
   */
  lemma ParsedRecordShape(content: JValue, lib: Library)
    requires ParseOutcome(content, lib).Ok?
    ensures DefaultTemplate.Keys <= ParseOutcome(content, lib).value.Keys
    ensures LinksAreNormal(ParseOutcome(content, lib).value)
    ensures lib.validate(ParseOutcome(content, lib).value) == Accepted
  {
    DecodedRecordShape(JsonText(content, lib), lib);
  }

  lemma DecodedRecordShape(jsonStr: string, lib: Library)
    requires Decoded(jsonStr, lib).Ok?
    ensures DefaultTemplate.Keys <= Decoded(jsonStr, lib).value.Keys
    ensures LinksAreNormal(Decoded(jsonStr, lib).value)
    ensures lib.validate(Decoded(jsonStr, lib).value) == Accepted
  {
    var parsed := lib.loads(jsonStr).value;
    NormalizedRecordKeys(parsed.fields, lib.str);
    NormalizedLinksAreNormal(NormalizedArrays(MergeInto(DefaultTemplate, parsed.fields), lib.str));
  }

  /**
   * Whatever the payload says under a key that none of the steps rewrites
   * (`work_experience`, `education`, `professional_summary`, or a key the
   * template does not know) reaches the record unchanged.
   */
  lemma PayloadPassesThrough(payload: map<string, JValue>, str: JValue -> string, k: string)
    requires k in payload
    requires k !in {"personal_information", "skills", "additional_information", "projects"}
    ensures k in NormalizedRecord(payload, str) && NormalizedRecord(payload, str)[k] == payload[k]
  {
    var merged := MergeInto(DefaultTemplate, payload);
    assert merged[k] == payload[k];
    NormalizedArraysKeepsOthers(merged, str, k);
    NormalizedUrlsKeepsOthers(NormalizedArrays(merged, str), k);
  }
}
