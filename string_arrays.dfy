/**
 * app/services/llm_service.py, `_normalize_string_arrays`: the skill and
 * additional-information lists should hold strings, but the model often
 * answers with objects such as `{"name": ..., "description": ...}`; each
 * item of those lists is flattened to one value.
 */
module StringArrays {
  import opened Json
  import opened Strings
  import DefaultMerge

  /** Keys of `skills` whose lists are normalised (line 193); the same names as the template's skill lists. */
  const SkillKeys: seq<string> := DefaultMerge.SkillFields

  /** Keys of `additional_information` whose lists are normalised (line 199). */
  const AdditionalKeys: seq<string> := DefaultMerge.AdditionalFields

  /** No key is listed twice. */
  predicate Distinct(keys: seq<string>) {
    forall i, j :: 0 <= i < j < |keys| ==> keys[i] != keys[j]
  }

  /** How `f"{v}"` renders a value: a string as itself, anything else through `str`. */
  function Rendered(v: JValue, str: JValue -> string): string {
    if v.JStr? then v.s else str(v)
  }

  /**
   * `normalize_item` (lines 179-189). For an object, `name` and
   * `description` default to `""`; both truthy gives `"<name> - <description>"`,
   * otherwise the first truthy of the two is returned as it is, and an object
   * with neither becomes `str(item)`.
   */
  function NormalizeItem(item: JValue, str: JValue -> string): JValue {
    match item
    case JStr(_) => item
    case JObj(fields) =>
      var name := Get(fields, "name", JStr(""));
      var description := Get(fields, "description", JStr(""));
      if Truthy(name) && Truthy(description) then JStr(Rendered(name, str) + " - " + Rendered(description, str))
      else if Truthy(name) then name
      else if Truthy(description) then description
      else JStr(str(item))
    case _ => JStr(str(item))
  }

  /** The list comprehension of lines 195 and 201. */
  function NormalizeList(items: seq<JValue>, str: JValue -> string): seq<JValue> {
    seq(|items|, j requires 0 <= j < |items| => NormalizeItem(items[j], str))
  }

  /** The value of an entry after the key loop: normalised when its key is listed and it is an array. */
  function Handled(v: JValue, listed: bool, str: JValue -> string): JValue {
    if listed && v.JArr? then JArr(NormalizeList(v.items, str)) else v
  }

  /** One pass of the key loop: the list under `key`, if there is one, is normalised. */
  function NormalizeListAt(section: map<string, JValue>, key: string, str: JValue -> string): map<string, JValue> {
    if key in section && section[key].JArr? then
      section[key := JArr(NormalizeList(section[key].items, str))]
    else section
  }

  /** The section after the key loop has handled `keys[..n]`, in order. */
  function NormalizeLists(section: map<string, JValue>, keys: seq<string>, n: nat, str: JValue -> string): map<string, JValue>
    requires n <= |keys|
  {
    if n == 0 then section
    else NormalizeListAt(NormalizeLists(section, keys, n - 1, str), keys[n - 1], str)
  }

  /** What `_normalize_string_arrays` leaves in the record: both sections handled when they are objects. */
  function NormalizedArrays(data: map<string, JValue>, str: JValue -> string): map<string, JValue> {
    var withSkills :=
      if "skills" in data && data["skills"].JObj? then
        data["skills" := JObj(NormalizeLists(data["skills"].fields, SkillKeys, |SkillKeys|, str))]
      else data;
    if "additional_information" in withSkills && withSkills["additional_information"].JObj? then
      withSkills["additional_information" :=
        JObj(NormalizeLists(withSkills["additional_information"].fields, AdditionalKeys, |AdditionalKeys|, str))]
    else withSkills
  }

  /** The `for key in [...]` loop over one section, replacing each listed array in turn. */
  method NormalizeSection(section: map<string, JValue>, keys: seq<string>, str: JValue -> string)
    returns (out: map<string, JValue>)
    ensures out == NormalizeLists(section, keys, |keys|, str)
  {
    out := section;
    var i := 0;
    while i < |keys|
      invariant 0 <= i <= |keys|
      invariant out == NormalizeLists(section, keys, i, str)
    {
      var key := keys[i];
      if key in out && out[key].JArr? {
        out := out[key := JArr(NormalizeList(out[key].items, str))];
      }
      i := i + 1;
    }
  }

  /** `_normalize_string_arrays`. */
  method NormalizeStringArrays(data: map<string, JValue>, str: JValue -> string) returns (result: map<string, JValue>)
    ensures result == NormalizedArrays(data, str)
  {
    result := data;
    if "skills" in result && result["skills"].JObj? {
      var skills := NormalizeSection(result["skills"].fields, SkillKeys, str);
      result := result["skills" := JObj(skills)];
    }
    if "additional_information" in result && result["additional_information"].JObj? {
      var additional := NormalizeSection(result["additional_information"].fields, AdditionalKeys, str);
      result := result["additional_information" := JObj(additional)];
    }
  }

  /** An item whose flattening is a string: what the `-> str` annotation of `normalize_item` promises. */
  predicate Flattens(item: JValue) {
    item.JObj? ==>
      var name := Get(item.fields, "name", JStr(""));
      var description := Get(item.fields, "description", JStr(""));
      (Truthy(name) && !Truthy(description) ==> name.JStr?) &&
      (!Truthy(name) && Truthy(description) ==> description.JStr?)
  }

  /**
   * The item becomes a string exactly when it flattens: an object whose only
   * truthy field of the two is, say, a number or a nested object comes back
   * as that value, not as text.
   */
  lemma NormalizeItemIsString(item: JValue, str: JValue -> string)
    ensures NormalizeItem(item, str).JStr? <==> Flattens(item)
  {
  }

  /** Strings are left as they are. */
  lemma NormalizeItemKeepsString(s: string, str: JValue -> string)
    ensures NormalizeItem(JStr(s), str) == JStr(s)
  {
  }

  /** An object with a non-empty string name and description becomes `"<name> - <description>"`. */
  lemma NamedItemJoined(fields: map<string, JValue>, name: string, description: string, str: JValue -> string)
    requires "name" in fields && fields["name"] == JStr(name) && name != ""
    requires "description" in fields && fields["description"] == JStr(description) && description != ""
    ensures NormalizeItem(JObj(fields), str) == JStr(name + " - " + description)
  {
  }

  /**
   * An object with neither a truthy `name` nor a truthy `description` (an
   * award given as `{"award_name": ...}`, say) is rendered whole by `str`.
   */
  lemma UnnamedItemRendered(fields: map<string, JValue>, str: JValue -> string)
    requires !Truthy(Get(fields, "name", JStr(""))) && !Truthy(Get(fields, "description", JStr("")))
    ensures NormalizeItem(JObj(fields), str) == JStr(str(JObj(fields)))
  {
  }

  /** Every list element is a string after normalisation when every item flattens. */
  lemma NormalizeListStrings(items: seq<JValue>, str: JValue -> string)
    requires forall j :: 0 <= j < |items| ==> Flattens(items[j])
    ensures |NormalizeList(items, str)| == |items|
    ensures forall j :: 0 <= j < |items| ==> NormalizeList(items, str)[j].JStr?
  {
    forall j | 0 <= j < |items|
      ensures NormalizeList(items, str)[j].JStr?
    {
      NormalizeItemIsString(items[j], str);
    }
  }

  /** A list of strings is left as it is, so normalising twice is normalising once. */
  lemma NormalizeListOfStrings(items: seq<JValue>, str: JValue -> string)
    requires forall j :: 0 <= j < |items| ==> items[j].JStr?
    ensures NormalizeList(items, str) == items
  {
  }

  /** Normalising a list twice gives what normalising it once does, when every item flattens. */
  lemma NormalizeListIdempotent(items: seq<JValue>, str: JValue -> string)
    requires forall j :: 0 <= j < |items| ==> Flattens(items[j])
    ensures NormalizeList(NormalizeList(items, str), str) == NormalizeList(items, str)
  {
    NormalizeListStrings(items, str);
    NormalizeListOfStrings(NormalizeList(items, str), str);
  }

  /**
   * After the key loop has handled `keys[..n]`: the section has the same
   * keys, the arrays under the handled keys are normalised and every other
   * value is untouched.
   */
  lemma {:induction false} NormalizeListsAt(section: map<string, JValue>, keys: seq<string>, n: nat, str: JValue -> string, k: string)
    requires n <= |keys| && Distinct(keys)
    ensures k in NormalizeLists(section, keys, n, str) <==> k in section
    ensures k in section ==>
      NormalizeLists(section, keys, n, str)[k] == Handled(section[k], k in keys[..n], str)
    decreases n
  {
    if n > 0 {
      NormalizeListsAt(section, keys, n - 1, str, k);
      PrefixStep(keys, n, k);
      if k == keys[n - 1] {
        assert k !in keys[..n - 1];
      }
    }
  }

  lemma SkillKeysDistinct()
    ensures Distinct(SkillKeys)
  {
  }

  lemma AdditionalKeysDistinct()
    ensures Distinct(AdditionalKeys)
  {
  }

  /**
   * Only the two sections change, and only when they are objects: every
   * other key of the record keeps its value, and so does a section of
   * another type (a flat `"skills": [...]` list is not normalised).
   */
  lemma NormalizedArraysKeepsOthers(data: map<string, JValue>, str: JValue -> string, k: string)
    requires k == "skills" || k == "additional_information" ==> k !in data || !data[k].JObj?
    ensures k in NormalizedArrays(data, str) <==> k in data
    ensures k in data ==> NormalizedArrays(data, str)[k] == data[k]
  {
  }

  /**
   * Inside `skills`: a listed key holding an array gets the normalised array,
   * every other entry is untouched, and no entry appears or disappears.
   */
  lemma NormalizedSkillsAt(data: map<string, JValue>, str: JValue -> string, k: string)
    requires "skills" in data && data["skills"].JObj?
    ensures NormalizedArrays(data, str)["skills"].JObj?
    ensures var before := data["skills"].fields;
            var after := NormalizedArrays(data, str)["skills"].fields;
            (k in after <==> k in before) &&
            (k in before ==> after[k] == Handled(before[k], k in SkillKeys, str))
  {
    SkillKeysDistinct();
    NormalizeListsAt(data["skills"].fields, SkillKeys, |SkillKeys|, str, k);
    assert SkillKeys[..|SkillKeys|] == SkillKeys;
  }

  /** Inside `additional_information`, the same as for `skills` with its own five keys. */
  lemma NormalizedAdditionalAt(data: map<string, JValue>, str: JValue -> string, k: string)
    requires "additional_information" in data && data["additional_information"].JObj?
    ensures NormalizedArrays(data, str)["additional_information"].JObj?
    ensures var before := data["additional_information"].fields;
            var after := NormalizedArrays(data, str)["additional_information"].fields;
            (k in after <==> k in before) &&
            (k in before ==> after[k] == Handled(before[k], k in AdditionalKeys, str))
  {
    AdditionalKeysDistinct();
    NormalizeListsAt(data["additional_information"].fields, AdditionalKeys, |AdditionalKeys|, str, k);
    assert AdditionalKeys[..|AdditionalKeys|] == AdditionalKeys;
  }

  /** The record keeps exactly its keys. */
  lemma NormalizedArraysKeys(data: map<string, JValue>, str: JValue -> string)
    ensures NormalizedArrays(data, str).Keys == data.Keys
  {
  }
}
