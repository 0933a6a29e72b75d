# Resume LLM post-processing, modelled in Dafny

This project models the deterministic core of a resume-parsing service.
A chat model is asked for a resume as JSON, and the service turns its
answer into a record in these steps:

1. It flattens the answer's content to text.
2. It cuts the JSON object out of the text.
3. It decodes the object.
4. It merges the object over a fixed record template.
5. It normalises the skill and additional-information lists to strings.
6. It normalises the link fields to URLs.
7. It validates the record against a schema.

Each failure is reported as a `ParsingError` with one of four messages.

Two more pieces are modelled. The upload check accepts a file name only if
its extension is one of the configured types. The configuration parses the
comma-separated list of those types.

Modules:

- `Strings`: the Python string operations the code uses: `isspace`, `strip`, ASCII `lower`, `startswith`, `endswith`, `find`, `rfind`, `split` on one character, and `join`.
- `Json`: decoded JSON values, with objects as maps, plus Python truthiness and `dict.get`. The same file holds `Outcomes`, with `Option` and `Result`.
- `Config`: `Settings.allowed_file_type_set`.
- `Validators`: the upload-check exceptions and `validate_file_type`.
- `ResponseText`: `_coerce_to_text` as a loop method, and `_extract_json_string` as pure functions.
- `DefaultMerge`: `DEFAULT_TEMPLATE`, and `_merge_defaults` as a method. Its loop walks the payload's keys and calls itself on nested objects.
- `StringArrays`: `_normalize_string_arrays`, as methods looping over the listed keys.
- `Urls`: `_normalize_url`, plus `_normalize_urls_in_data` as methods looping over the link fields and the projects.
- `Pipeline`: lines 289-342 of `parse_resume_with_llm`. This is the order of the steps and how each exception becomes a message.

The service mutates Python dicts in place. In the model, each method takes a
map or sequence value and returns the updated value. Each method is proved
equal to a specification function, such as `MergeInto`,
`NormalizedArrays`, `NormalizedUrls` or `CoercedText`. The properties are
proved as lemmas about those functions.

Some library calls have no visible code, so the model takes them as
function-valued parameters:

- `json.dumps`
- Python's `str()`
- `json.loads`, which returns a value, raises `JSONDecodeError`, or raises anything else (such as `RecursionError` on deeply nested input)
- `ResumeSchema.model_validate`, which accepts the record, raises `ValidationError`, or raises anything else

In the pipeline these parameters are bundled in `Pipeline.Library`.

The system prompt (app/services/llm_service.py:17-90) asks the model for
more than the post-processing code enforces. It asks for null for missing
fields (line 22), for lists of strings only (lines 24 and 89), for awards
with name and description combined (line 89), and for URLs with a protocol
taken from the extracted hyperlinks (lines 25-31). The model follows the
code, which does this:

- **Placeholders are not set to null.** A non-blank string without a protocol gets `https://` in front, so `N/A` becomes `https://N/A` (`Urls.BareTextGetsHttps`).
- **Awards are collapsed only through `name` and `description`.** An object without either, such as `{"award_name": "Dean's List"}`, becomes `str()` of the whole object, not the award's name (`StringArrays.UnnamedItemRendered`).
- **An item is not always turned into a string.** Take an object where only `name` is truthy, or only `description`, and that value is not a string. `normalize_item` returns that value as it is (`StringArrays.NormalizeItemIsString`).
- **A section of the wrong type is not normalised.** A flat `"skills": [{"name": "Go"}]` list passes the merge and keeps its objects, since only a `skills` object has its lists flattened (`StringArrays.NormalizedArraysKeepsOthers`); likewise a `projects` that is not a list keeps its links as given (`Urls.NormalizedUrlsKeepsOthers`).
- **`work_experience` entries are not normalised.** They reach the record as the payload gives them (`Pipeline.PayloadPassesThrough`).
- **No code reconciles links with extracted hyperlinks.** Hyperlinks only appear in the prompt text.
- **A missing JSON object is not an error at extraction.** Text without a `{`…`}` pair is passed on stripped and unfenced (`ResponseText.ExtractWithoutBraces`). It then ends in one of these ways. Empty text gives "Empty response from LLM" (`Pipeline.EmptyResponseWhenBlank`). Text on which `json.loads` raises `JSONDecodeError` gives "Invalid JSON response from LLM" (`Pipeline.InvalidJsonWhenUndecodable`). Any other exception of `json.loads` gives "LLM parsing failed" (`Pipeline.ParseFailedWhenUnhandled`). Text that decodes to something other than an object, such as `[1, 2]`, `42` or `null`, fails on `.items()` in the merge and gives "LLM parsing failed" (`Pipeline.ParseFailedWhenNotObject`).

## Model

| member | source | states |
|---|---|---|
| Strings.IsSpace | app/services/llm_service.py:132 | the characters Python's `str.isspace()` accepts, which `strip` removes; `Strings.StripBounds` and `Strings.StripEmpty` state what stripping does with them |
| Strings.Strip | app/services/llm_service.py:132 | `str.strip()`: the result has no whitespace at either end and is no longer than the input |
| Strings.StripBounds | app/services/llm_service.py:132 | stripping removes only whitespace: the result is a contiguous slice with only whitespace before and after it |
| Strings.StripStripped | app/services/llm_service.py:215 | stripping text that has no outer whitespace leaves it unchanged |
| Strings.StripEmpty | app/services/llm_service.py:133 | a string strips to empty exactly when it is all whitespace |
| Strings.Lower | app/utils/validators.py:25 | `str.lower()`: same length, no upper-case letter left, each `A`-`Z` becomes the matching `a`-`z`, other characters kept |
| Strings.LowerIdempotent | app/utils/validators.py:25 | lower-casing twice is lower-casing once |
| Strings.StartsWith | app/services/llm_service.py:209 | `str.startswith`: the text is at least as long as the prefix and begins with it |
| Strings.EndsWith | app/services/llm_service.py:213 | `str.endswith`: the text is at least as long as the suffix and ends with it |
| Strings.Join | app/services/llm_service.py:246 | `"\n".join`: the parts in order with the separator between them; its partners are `Strings.SplitJoin` and `Strings.JoinSplit` |
| Strings.IndexOf | app/services/llm_service.py:216 | `find`: -1 exactly when the character is absent, otherwise its first occurrence |
| Strings.LastIndexOf | app/services/llm_service.py:217 | `rfind`: -1 exactly when the character is absent, otherwise its last occurrence |
| Strings.Split | app/core/config.py:18 | `split(",")` gives at least one piece, and no piece holds the separator |
| Strings.JoinSplit | app/core/config.py:18 | joining the pieces of a split gives back the original string |
| Strings.SplitJoin | app/services/llm_service.py:246 | splitting a join of separator-free parts gives back the parts |
| Json.Truthy | app/services/llm_service.py:186-188 | Python truthiness of a decoded value: false for `None`, `False`, zero, `""`, `[]` and `{}`; used by `StringArrays.NormalizeItemIsString`, `StringArrays.UnnamedItemRendered` |
| Json.Get | app/services/llm_service.py:184-185 | `dict.get(key, default)`: the value under the key, or the default when the key is absent |
| Config.Normalized | app/core/config.py:18 | `item.strip().lower()`; `Config.NormalizedIsTypeName` states that a non-blank comma-free piece becomes a type name |
| Config.Settings.AllowedFileTypeSet | app/core/config.py:17-18 | every allowed type is non-empty, lower-case, stripped and has no comma |
| Config.NormalizedIsTypeName | app/core/config.py:18 | a non-blank piece without a comma normalises to such a type name |
| Config.AllowedFileTypeSetMembers | app/core/config.py:18 | a type is allowed exactly when some non-blank comma-separated piece strips and lower-cases to it |
| Config.BlankSettingAllowsNothing | app/core/config.py:18 | a setting of only commas and whitespace (`""`, `", ,"`) allows no type |
| Config.PieceCharsInSetting | app/core/config.py:18 | every character of a split piece occurs in the setting |
| Config.JoinedSettingAllows | app/core/config.py:18 | a setting written as comma-joined pieces allows exactly their normalised non-blank pieces |
| Config.CaseVariantsCollapse | app/core/config.py:18 | two pieces that agree after strip and lower (`"pdf, PDF"`) give a single allowed type |
| Validators.Extension | app/utils/validators.py:23-25 | there is an extension exactly when the name has a `.`, and the extension never contains a `.` |
| Validators.ValidateFileType | app/utils/validators.py:22-28 | "File type is missing" exactly when the name has no `.`; the accepted extension is allowed, dot-free, and is the name's extension |
| Validators.ExtensionAfterLastDot | app/utils/validators.py:25 | the extension is the lower-cased text after the last `.` |
| Validators.ValidateFileTypeDecision | app/utils/validators.py:26-28 | for a name with a `.`, it is accepted exactly when its extension is allowed, and otherwise rejected with "Unsupported file type" |
| Validators.LowerPointwise | app/utils/validators.py:25 | names equal after lower-casing agree letter by letter after lower-casing |
| Validators.ExtensionOfAgreeing | app/utils/validators.py:25 | names that agree letter by letter after lower-casing have the same extension |
| Validators.ExtensionIgnoresCase | app/utils/validators.py:23-25 | two names equal after lower-casing have the same extension |
| Validators.ValidateFileTypeIgnoresCase | app/utils/validators.py:22-28 | two names that differ only in letter case get the same extension or the same error |
| Validators.TrailingDotRejected | app/utils/validators.py:25-27 | with the configured types, a name ending in `.` is always rejected as unsupported |
| ResponseText.CoercedText | app/services/llm_service.py:223-248 | `_coerce_to_text` as a function: `None` as `""`, a string as itself, an object by its string `text` or else through `json.dumps`, a list as its text parts joined by newlines or through `str()` when it has none, anything else through `str()`; `ResponseText.CoerceToText` and `ResponseText.CoercedLinesRoundTrip` state its contract |
| ResponseText.CoerceToText | app/services/llm_service.py:223-248 | the loop method returns exactly `CoercedText` for every content |
| ResponseText.PartText | app/services/llm_service.py:241-244 | what one list element contributes: a string as itself, a `{"text": <string>}` part as its text, anything else nothing; stated by `ResponseText.OtherItemsSkipped` and `ResponseText.TextPartsOfStrings` |
| ResponseText.TextParts | app/services/llm_service.py:239-244 | the contributions of the elements in list order; `ResponseText.TextPartsAppend`, `ResponseText.TextPartsOfStrings` and `ResponseText.CoercedLinesRoundTrip` state its contract |
| ResponseText.TextPartsAppend | app/services/llm_service.py:239-244 | the parts of two lists laid end to end are the parts of the first, then those of the second |
| ResponseText.OtherItemsSkipped | app/services/llm_service.py:240-244 | an element that is neither a string nor a `{"text": str}` part contributes nothing |
| ResponseText.TextPartsOfStrings | app/services/llm_service.py:240-241 | a list of strings contributes each string, in order |
| ResponseText.CoercedLinesRoundTrip | app/services/llm_service.py:245-246 | splitting the coerced text of list content at newlines gives back exactly the collected parts |
| ResponseText.DropOpeningFence | app/services/llm_service.py:209-212 | drops a leading ```` ```json ```` or, failing that, a leading ```` ``` ````; `ResponseText.OpeningFenceIsSuffix` proves the result is a suffix |
| ResponseText.DropClosingFence | app/services/llm_service.py:213-214 | drops a trailing ```` ``` ````; `ResponseText.ClosingFenceIsPrefix` proves the result is a prefix |
| ResponseText.Unfence | app/services/llm_service.py:208-215 | strip, drop the fences, strip again; `ResponseText.UnfenceIsSlice` and `ResponseText.UnfenceKeepsBraceSpan` state what it keeps |
| ResponseText.BraceSpanOf | app/services/llm_service.py:216-218 | the stretch from the first `{` to the last `}`, when both occur in that order; `ResponseText.ExtractSpansBraces` states it of the raw text |
| ResponseText.BraceSpan | app/services/llm_service.py:216-220 | the brace span when there is one, otherwise the text unchanged; `ResponseText.BraceSpanIsSlice` proves it is a slice of its input |
| ResponseText.ExtractJsonString | app/services/llm_service.py:207-220 | `_extract_json_string`; its contract is stated by `ResponseText.ExtractIsSlice`, `ResponseText.ExtractIsStripped`, `ResponseText.ExtractSpansBraces` and `ResponseText.ExtractWithoutBraces` |
| ResponseText.OpeningFenceIsSuffix | app/services/llm_service.py:209-212 | dropping the opening fence keeps a suffix of the text |
| ResponseText.ClosingFenceIsPrefix | app/services/llm_service.py:213-214 | dropping the closing fence keeps a prefix of the text |
| ResponseText.UnfenceIsSlice | app/services/llm_service.py:208-215 | the unfenced text is a contiguous stretch of the stripped input |
| ResponseText.BraceSpanIsSlice | app/services/llm_service.py:216-219 | cutting to the brace span keeps a contiguous stretch |
| ResponseText.ExtractIsSlice | app/services/llm_service.py:207-220 | for every input the extracted text is `Strip(raw)[i..j]` for some `i <= j`: nothing is added, reordered or rewritten |
| ResponseText.ExtractIsStripped | app/services/llm_service.py:207-220 | the extracted text never starts or ends with whitespace |
| ResponseText.UnfenceKeepsBraceSpan | app/services/llm_service.py:208-215 | stripping and dropping the code fences never moves the first `{` or the last `}` |
| ResponseText.ExtractSpansBraces | app/services/llm_service.py:216-219 | when a `{` comes before a later `}`, the result is the raw text from the first `{` to the last `}` |
| ResponseText.ExtractWithoutBraces | app/services/llm_service.py:216-220 | without such a pair, the result is the stripped, unfenced text |
| ResponseText.BlankExtractsEmpty | app/services/llm_service.py:208 | blank text extracts to `""` |
| ResponseText.FencedObject | app/services/llm_service.py:207-220 | an object in a ```` ```json ```` fence, with any whitespace around it, extracts to exactly the object |
| ResponseText.ExtractOfBraced | app/services/llm_service.py:216-219 | text that already runs from `{` to `}` extracts to itself |
| ResponseText.ExtractIdempotent | app/services/llm_service.py:207-220 | extracting from an extraction changes nothing when the raw text has a brace pair |
| DefaultMerge.DefaultTemplateTop | app/services/llm_service.py:93-121 | `DEFAULT_TEMPLATE` has exactly the seven top-level keys; the summary is `None` and `education`, `work_experience` and `projects` are empty lists |
| DefaultMerge.DefaultPersonal | app/services/llm_service.py:94-102 | the template's `personal_information` has exactly the seven personal fields, all `None` |
| DefaultMerge.DefaultSkills | app/services/llm_service.py:106-112 | the template's `skills` has exactly the five skill lists, all empty |
| DefaultMerge.DefaultAdditional | app/services/llm_service.py:114-120 | the template's `additional_information` has exactly the five lists, all empty |
| DefaultMerge.MergeInto | app/services/llm_service.py:165-170 | the result of `merge`; `DefaultMerge.Merge`, `DefaultMerge.MergeKeys` and `DefaultMerge.MergeExtendsSource` state its contract |
| DefaultMerge.Merge | app/services/llm_service.py:165-170 | the key loop with its recursive calls returns exactly `MergeInto(target, source)` |
| DefaultMerge.MergeStep | app/services/llm_service.py:166-170 | handling one more key of the source updates that key of the result and nothing else |
| DefaultMerge.MergeDefaults | app/services/llm_service.py:162-173 | the result is the payload merged over `DEFAULT_TEMPLATE` |
| DefaultMerge.MergeKeys | app/services/llm_service.py:166-170 | the merged record has exactly the keys of the template and of the payload, unknown payload keys included |
| DefaultMerge.MergeKeepsUntouched | app/services/llm_service.py:166 | a key the payload does not mention keeps the template's value |
| DefaultMerge.MergeExtendsSource | app/services/llm_service.py:166-170 | every payload value reaches the result at every depth; a non-object value replaces the template's value whatever its type |
| DefaultMerge.ExtendsSelf | app/services/llm_service.py:170 | a value copied over as it is carries everything it says |
| DefaultMerge.MergeKeepsShape | app/services/llm_service.py:167-168 | a nested template object survives with all its keys when the payload leaves it out or gives an object there |
| DefaultMerge.MergeEmpty | app/services/llm_service.py:163-172 | an empty payload yields exactly the template |
| DefaultMerge.MergeSelf | app/services/llm_service.py:165-170 | merging a record over itself changes nothing |
| DefaultMerge.MergeIdempotent | app/services/llm_service.py:165-170 | merging the same payload twice gives what merging it once does |
| DefaultMerge.DefaultsComplete | app/services/llm_service.py:93-121 | the result always has the template's seven top-level keys, and each template section keeps its fields unless the payload gives a non-object there |
| StringArrays.Rendered | app/services/llm_service.py:187 | how the f-string renders a value: a string as itself, anything else through `str()`; used by `StringArrays.NamedItemJoined` |
| StringArrays.NormalizeList | app/services/llm_service.py:195 | the list comprehension of lines 195 and 201: each item normalised in its place; `StringArrays.NormalizeListStrings`, `StringArrays.NormalizeListOfStrings` and `StringArrays.NormalizeListIdempotent` state its contract |
| StringArrays.NormalizeListAt | app/services/llm_service.py:194-195 | one pass of the key loop: the list under the key is normalised when the key holds a list, otherwise the section is unchanged; stated by `StringArrays.NormalizeListsAt` |
| StringArrays.NormalizeLists | app/services/llm_service.py:193-195 | the section after the key loop has handled the first `n` keys; `StringArrays.NormalizeSection` and `StringArrays.NormalizeListsAt` state its contract |
| StringArrays.NormalizedArrays | app/services/llm_service.py:176-203 | the record `_normalize_string_arrays` leaves: each of the two sections handled when it is an object; stated by `StringArrays.NormalizeStringArrays`, `StringArrays.NormalizedSkillsAt`, `StringArrays.NormalizedAdditionalAt`, `StringArrays.NormalizedArraysKeepsOthers` and `StringArrays.NormalizedArraysKeys` |
| StringArrays.NormalizeSection | app/services/llm_service.py:192-201 | the key loop over one section returns exactly `NormalizeLists` of the listed keys |
| StringArrays.NormalizeStringArrays | app/services/llm_service.py:176-204 | the method returns exactly `NormalizedArrays` |
| StringArrays.NormalizeItem | app/services/llm_service.py:179-189 | `normalize_item`; its contract is stated by `StringArrays.NormalizeItemIsString`, `StringArrays.NormalizeItemKeepsString`, `StringArrays.NamedItemJoined` and `StringArrays.UnnamedItemRendered` |
| StringArrays.NormalizeItemIsString | app/services/llm_service.py:179-189 | an item becomes a string exactly when it is not an object whose only truthy `name`/`description` is a non-string |
| StringArrays.NormalizeItemKeepsString | app/services/llm_service.py:180-181 | a string item is kept as it is |
| StringArrays.NamedItemJoined | app/services/llm_service.py:184-187 | an object with non-empty string `name` and `description` becomes `"name - description"` |
| StringArrays.UnnamedItemRendered | app/services/llm_service.py:188-189 | an object with neither a truthy `name` nor a truthy `description` becomes `str()` of the whole object |
| StringArrays.NormalizeListStrings | app/services/llm_service.py:195 | the list keeps its length, and all its items are strings when every item's `name`/`description` flattens to a string |
| StringArrays.NormalizeListOfStrings | app/services/llm_service.py:195 | a list of strings is left unchanged |
| StringArrays.NormalizeListIdempotent | app/services/llm_service.py:195 | normalising a list a second time changes nothing when its items flatten to strings |
| StringArrays.NormalizeListsAt | app/services/llm_service.py:193-195 | after the key loop the section has the same keys, arrays under listed keys are normalised, and everything else is untouched |
| StringArrays.NormalizedArraysKeepsOthers | app/services/llm_service.py:192-201 | every top-level entry is unchanged except `skills` and `additional_information` when they are objects; a section of another type, such as a flat `skills` list, is kept as it is |
| StringArrays.NormalizedSkillsAt | app/services/llm_service.py:192-195 | inside `skills` only the five listed arrays change, each item in its place; non-list values and other keys are untouched |
| StringArrays.NormalizedAdditionalAt | app/services/llm_service.py:198-201 | the same for `additional_information` and its five keys |
| StringArrays.NormalizedArraysKeys | app/services/llm_service.py:176-204 | no top-level key appears or disappears |
| Urls.HasProtocol | app/services/llm_service.py:137 | the text starts with `http://`, `https://` or `ftp://` |
| Urls.NormalizeUrl | app/services/llm_service.py:127-141 | `None` exactly when the input is not a string or strips to empty; otherwise it starts with a protocol and is the stripped input, with `https://` in front when it had no protocol |
| Urls.NormalizeUrlIsNormal | app/services/llm_service.py:127-141 | the result is `None` or a stripped, non-empty URL with a protocol |
| Urls.NormalizeUrlKeepsNormal | app/services/llm_service.py:132-138 | such a URL is returned unchanged |
| Urls.NormalizeUrlIdempotent | app/services/llm_service.py:127-141 | normalising twice gives what normalising once does |
| Urls.BareTextGetsHttps | app/services/llm_service.py:137-141 | any non-blank text without a protocol gets `https://` in front, placeholders like `N/A` included |
| Urls.NormalizeLinkAt | app/services/llm_service.py:150-151 | one pass of the link loop: a present field is normalised, a missing one is not added; stated by `Urls.NormalizeLinksAt` |
| Urls.NormalizeLinks | app/services/llm_service.py:148-151 | `personal_information` after the link loop has handled the first `n` keys; `Urls.NormalizeInfoLinks` and `Urls.NormalizeLinksAt` state its contract |
| Urls.NormalizeProject | app/services/llm_service.py:156-157 | one project: an object with a `link` gets that link normalised, anything else is kept; stated by `Urls.NormalizedProjectKeepsOthers` and `Urls.NormalizedProjectSkipped` |
| Urls.NormalizeProjects | app/services/llm_service.py:154-157 | every project normalised in its place; `Urls.NormalizeProjectLinks` and `Urls.NormalizedProjectKeepsOthers` state its contract |
| Urls.NormalizedUrls | app/services/llm_service.py:144-159 | the record `_normalize_urls_in_data` leaves: the link fields handled when `personal_information` is an object, the projects when `projects` is a list; stated by `Urls.NormalizeUrlsInData`, `Urls.NormalizedLinksAreNormal`, `Urls.NormalizedUrlsKeepsOthers`, `Urls.NormalizedUrlsKeys` and `Urls.NormalizedUrlsIdempotent` |
| Urls.NormalizeInfoLinks | app/services/llm_service.py:148-151 | the link-field loop returns exactly `NormalizeLinks` of the listed keys |
| Urls.NormalizeProjectLinks | app/services/llm_service.py:154-157 | the project loop returns exactly `NormalizeProjects` |
| Urls.NormalizeUrlsInData | app/services/llm_service.py:144-159 | the method returns exactly `NormalizedUrls` |
| Urls.NormalizeLinksAt | app/services/llm_service.py:148-151 | after the key loop the section has the same keys, listed fields are normalised once, and the others are untouched |
| Urls.NormalizedLinksAreNormal | app/services/llm_service.py:144-159 | afterwards every link field and every project `link` is `None` or a URL with a protocol |
| Urls.NormalizedUrlsKeepsOthers | app/services/llm_service.py:144-159 | every top-level entry is unchanged except `personal_information` when it is an object and `projects` when it is a list; a section of another type is kept as it is |
| Urls.NormalizedInfoKeepsOthers | app/services/llm_service.py:148-151 | no field of `personal_information` is added or removed, and only `linkedin`, `github` and `website` may change |
| Urls.NormalizedProjectKeepsOthers | app/services/llm_service.py:153-157 | the project list keeps its length and order, and a project object keeps every field but `link` |
| Urls.NormalizedProjectSkipped | app/services/llm_service.py:156 | a project that is not an object, or has no `link`, is left as it is |
| Urls.NormalizedUrlsKeys | app/services/llm_service.py:144-159 | no top-level key appears or disappears |
| Urls.NormalizedUrlsIdempotent | app/services/llm_service.py:144-159 | normalising the links of a record twice gives what normalising them once does |
| Pipeline.NormalizedRecord | app/services/llm_service.py:309-311 | the payload merged over the template, then its string lists and its links normalised; stated by `Pipeline.NormalizedRecordKeys` and `Pipeline.PayloadPassesThrough` |
| Pipeline.JsonText | app/services/llm_service.py:295-300 | the content flattened to text and cut down to its JSON string; `ResponseText.ExtractIsSlice` and `Pipeline.BlankResponseRejected` state what it can be |
| Pipeline.Decoded | app/services/llm_service.py:301-342 | the outcome for the extracted text: empty text, a `JSONDecodeError`, another exception of `json.loads`, a non-object, a record the schema refuses, another exception of the schema check, or the record; `Pipeline.DecodedEmpty`, `Pipeline.DecodedInvalid`, `Pipeline.DecodedParseFailed` and `Pipeline.DecodedMessages` state it |
| Pipeline.ParseOutcome | app/services/llm_service.py:289-342 | the outcome for the answer's content; stated by `Pipeline.ParseLlmContent` and the lemmas below |
| Pipeline.ParseLlmContent | app/services/llm_service.py:289-342 | the step-by-step method returns exactly `ParseOutcome` |
| Pipeline.DecodeText | app/services/llm_service.py:301-342 | the steps after extraction return exactly `Decoded` of the extracted text |
| Pipeline.EmptyResponseWhenBlank | app/services/llm_service.py:301-302 | "Empty response from LLM" exactly when the extracted text is empty |
| Pipeline.DecodedEmpty | app/services/llm_service.py:301-302 | for the decoding stage alone, that error exactly when its input text is empty |
| Pipeline.MessagesDiffer | app/services/llm_service.py:302-342 | the four messages are pairwise different |
| Pipeline.InvalidJsonWhenUndecodable | app/services/llm_service.py:308-332 | "Invalid JSON response from LLM" exactly when the text is non-empty and `json.loads` raises `JSONDecodeError` |
| Pipeline.DecodedInvalid | app/services/llm_service.py:308-332 | for the decoding stage alone, that error exactly when its input is non-empty and raises `JSONDecodeError` |
| Pipeline.Unhandled | app/services/llm_service.py:308-342 | the cases the catch-all handler sees: `json.loads` raising something other than `JSONDecodeError`, decoded JSON that is not an object (so `.items()` fails), or the schema check raising something other than `ValidationError`; used by `Pipeline.ParseFailedWhenUnhandled` |
| Pipeline.ParseFailedWhenUnhandled | app/services/llm_service.py:308-342 | "LLM parsing failed" exactly in those cases |
| Pipeline.DecodedParseFailed | app/services/llm_service.py:308-342 | for the decoding stage alone, that error exactly in those cases |
| Pipeline.ParseFailedWhenNotObject | app/services/llm_service.py:309-342 | valid JSON that is not an object, such as `[1, 2]`, `42` or `null`, ends in "LLM parsing failed" |
| Pipeline.SchemaFailedWhenRefused | app/services/llm_service.py:312-342 | for a decoded object, "Schema validation failed" exactly when the schema raises `ValidationError`, "LLM parsing failed" exactly when it raises anything else, and success exactly when it accepts the record |
| Pipeline.FailureMessages | app/services/llm_service.py:315-342 | every failure carries one of the four messages |
| Pipeline.DecodedMessages | app/services/llm_service.py:315-342 | the same for the decoding stage alone |
| Pipeline.BlankResponseRejected | app/services/llm_service.py:295-302 | content whose text is blank is rejected as an empty response |
| Pipeline.NormalizedRecordKeys | app/services/llm_service.py:309-311 | the normalised record has exactly the template's keys and the payload's keys |
| Pipeline.ParsedRecordShape | app/services/llm_service.py:309-313 | a parsed record has every template key, only normal links, and was accepted by the schema check |
| Pipeline.DecodedRecordShape | app/services/llm_service.py:309-313 | the same for the decoding stage alone |
| Pipeline.PayloadPassesThrough | app/services/llm_service.py:309-311 | a payload entry under a key no step rewrites, such as `work_experience`, reaches the record unchanged |

## Left out

- The model call and prompt assembly (app/services/llm_service.py:251-286): network I/O through the chat client, and its "LLM API call failed" error.
- Logging throughout.
- `getattr(raw, "content", raw)` (line 290): the content is a parameter.
- `json.loads`, `json.dumps`, `str()` and `ResumeSchema.model_validate` are opaque parameters. `ResumeSchema` is imported but not defined in the schema module, so no concrete validation is modelled.
- `json.dumps` raising on content that is not serialisable: content is modelled as a decoded JSON value, which always serialises.
- `bytes` and other non-JSON content in `_coerce_to_text`: only JSON-shaped content is modelled.
- Numbers are `real`. Python's distinction between `int`, `float` and `bool` (`True == 1`) is not modelled, nor are the `NaN`, `Infinity` and `-Infinity` that `json.loads` accepts.
- Dict insertion order: objects are maps, so the order in which `merge` visits keys is a free choice in `DefaultMerge.Merge`. For the same reason the opaque `str` and `dumps` see an object as a map: unlike Python's `str(item)` and `json.dumps(content)`, their output cannot depend on the order of the keys.
- Aliasing between dicts: the model works on values. The template is a constant that nothing can modify, which stands for the `deepcopy` at line 163.
- The unreachable `return merged` at app/services/llm_service.py:204.
- Hyperlink reconciliation and placeholder-to-null scrubbing have no code, so they are not modelled.
- The `InvalidAPIKeyError` and `FileTooLargeError` kinds (app/utils/validators.py:6-15): `validate_file_type` raises neither, and their checks are outside this model.
- Environment loading and caching of the settings (app/core/config.py:9-23, except lines 17-18).
- Strings.Lower: lower-cases only `A`-`Z`, not the rest of Unicode that Python's `str.lower()` covers. Every letter-case fact is therefore about ASCII letters.
- Config.CaseVariantsCollapse: stated for a setting of two pieces such as `"pdf, PDF"`. The general case, any pieces that agree once normalised, follows from `Config.JoinedSettingAllows`.
