/**
 * app/services/llm_service.py, `DEFAULT_TEMPLATE` and `_merge_defaults`:
 * the record skeleton every parsed resume starts from, and the recursive
 * merge that lays the model's payload over it.
 */
module DefaultMerge {
  import opened Json

  /** Lines 94-102: every personal field starts out as `None`. */
  const PersonalFields: seq<string> := ["full_name", "email", "phone", "location", "linkedin", "github", "website"]

  /** Lines 106-112: the skill lists. */
  const SkillFields: seq<string> := ["languages", "frameworks", "tools", "databases", "certifications"]

  /** Lines 114-120: the additional-information lists. */
  const AdditionalFields: seq<string> := ["certifications", "languages", "awards", "publications", "interests"]

  function NullFields(keys: seq<string>): map<string, JValue> {
    map k | k in keys :: JNull
  }

  function EmptyLists(keys: seq<string>): map<string, JValue> {
    map k | k in keys :: JArr([])
  }

  /** `DEFAULT_TEMPLATE` (lines 93-121). */
  const DefaultTemplate: map<string, JValue> := map[
    "personal_information" := JObj(NullFields(PersonalFields)),
    "professional_summary" := JNull,
    "education" := JArr([]),
    "work_experience" := JArr([]),
    "skills" := JObj(EmptyLists(SkillFields)),
    "projects" := JArr([]),
    "additional_information" := JObj(EmptyLists(AdditionalFields))
  ]

  /** The template has seven top-level keys; the summary is `None` and the three record lists are empty. */
  lemma DefaultTemplateTop()
    ensures DefaultTemplate.Keys == {"personal_information", "professional_summary", "education",
                                     "work_experience", "skills", "projects", "additional_information"}
    ensures DefaultTemplate["professional_summary"] == JNull
    ensures DefaultTemplate["education"] == DefaultTemplate["work_experience"] == DefaultTemplate["projects"] == JArr([])
  {
  }

  /** Every personal field of the template is `None`. */
  lemma DefaultPersonal()
    ensures DefaultTemplate["personal_information"].JObj?
    ensures var fields := DefaultTemplate["personal_information"].fields;
            fields.Keys == {"full_name", "email", "phone", "location", "linkedin", "github", "website"} &&
            forall k :: k in fields ==> fields[k] == JNull
  {
  }

  /** Every skill list of the template is empty. */
  lemma DefaultSkills()
    ensures DefaultTemplate["skills"].JObj?
    ensures var fields := DefaultTemplate["skills"].fields;
            fields.Keys == {"languages", "frameworks", "tools", "databases", "certifications"} &&
            forall k :: k in fields ==> fields[k] == JArr([])
  {
  }

  /** Every additional-information list of the template is empty. */
  lemma DefaultAdditional()
    ensures DefaultTemplate["additional_information"].JObj?
    ensures var fields := DefaultTemplate["additional_information"].fields;
            fields.Keys == {"certifications", "languages", "awards", "publications", "interests"} &&
            forall k :: k in fields ==> fields[k] == JArr([])
  {
  }

  /**
   * What the nested `merge` (lines 165-170) leaves in `target` after walking
   * `source`: a key whose value is an object on both sides is merged
   * recursively, every other key of `source` overwrites, and the keys only
   * `target` has stay as they were.
   */
  function MergeInto(target: map<string, JValue>, source: map<string, JValue>): map<string, JValue>
    decreases JObj(source)
  {
    map k | k in target.Keys + source.Keys ::
      if k !in source then target[k]
      else if source[k].JObj? && k in target && target[k].JObj? then
        JObj(MergeInto(target[k].fields, source[k].fields))
      else source[k]
  }

  /** One step of the merge loop: the value `key` gets when `value` is merged in. */
  function MergedValue(target: map<string, JValue>, key: string, value: JValue): JValue
    decreases value
  {
    if value.JObj? && key in target && target[key].JObj? then
      JObj(MergeInto(target[key].fields, value.fields))
    else value
  }

  /**
   * `merge(target, source)`: walks the keys of `source` one at a time and
   * updates the target in place (modelled as a map that is reassigned).
   */
  method Merge(target: map<string, JValue>, source: map<string, JValue>) returns (merged: map<string, JValue>)
    ensures merged == MergeInto(target, source)
    decreases JObj(source)
  {
    merged := target;
    var pending := source.Keys;
    while pending != {}
      invariant pending <= source.Keys
      invariant merged == MergeInto(target, source - pending)
      invariant forall k :: k in pending ==> (k in merged <==> k in target) && (k in target ==> merged[k] == target[k])
      decreases pending
    {
      var key :| key in pending;
      var value := source[key];
      MergeStep(target, source, pending, key);
      if value.JObj? && key in merged && merged[key].JObj? {
        var inner := Merge(merged[key].fields, value.fields);
        merged := merged[key := JObj(inner)];
      } else {
        merged := merged[key := value];
      }
      pending := pending - {key};
    }
    assert source - {} == source;
  }

  /** Merging one more key of `source` updates just that key of the result. */
  lemma MergeStep(target: map<string, JValue>, source: map<string, JValue>, pending: set<string>, key: string)
    requires key in pending && pending <= source.Keys
    ensures MergeInto(target, source - (pending - {key}))
         == MergeInto(target, source - pending)[key := MergedValue(target, key, source[key])]
  {
    var before := source - pending;
    var after := source - (pending - {key});
    assert after == before[key := source[key]];
  }

  /** `_merge_defaults`: the payload merged over a fresh copy of the template. */
  method MergeDefaults(payload: map<string, JValue>) returns (merged: map<string, JValue>)
    ensures merged == MergeInto(DefaultTemplate, payload)
  {
    merged := Merge(DefaultTemplate, payload);
  }

  /** The merged record has exactly the keys of the target and of the source. */
  lemma MergeKeys(target: map<string, JValue>, source: map<string, JValue>)
    ensures MergeInto(target, source).Keys == target.Keys + source.Keys
  {
  }

  /** A key the source does not mention keeps the target's value. */
  lemma MergeKeepsUntouched(target: map<string, JValue>, source: map<string, JValue>, k: string)
    requires k in target && k !in source
    ensures MergeInto(target, source)[k] == target[k]
  {
  }

  /**
   * `r` carries everything `s` says: each key of `s` is in `r`, objects on
   * both sides agree recursively, and any other value of `s` is in `r` as is.
   */
  predicate Extends(r: map<string, JValue>, s: map<string, JValue>)
    decreases JObj(s)
  {
    forall k :: k in s ==>
      && k in r
      && (if s[k].JObj? && r[k].JObj? then Extends(r[k].fields, s[k].fields) else r[k] == s[k])
  }

  /**
   * The payload wins: the merged record carries every key and every
   * non-object value of the source, at every depth, unknown keys included.
   */
  lemma {:induction false} MergeExtendsSource(target: map<string, JValue>, source: map<string, JValue>)
    ensures Extends(MergeInto(target, source), source)
    decreases JObj(source)
  {
    var r := MergeInto(target, source);
    forall k | k in source
      ensures k in r
      ensures if source[k].JObj? && r[k].JObj? then Extends(r[k].fields, source[k].fields) else r[k] == source[k]
    {
      if source[k].JObj? && k in target && target[k].JObj? {
        MergeExtendsSource(target[k].fields, source[k].fields);
      } else if source[k].JObj? {
        ExtendsSelf(source[k].fields);
      }
    }
  }

  /** Every record carries everything it says itself. */
  lemma {:induction false} ExtendsSelf(s: map<string, JValue>)
    ensures Extends(s, s)
    decreases JObj(s)
  {
    forall k | k in s && s[k].JObj?
      ensures Extends(s[k].fields, s[k].fields)
    {
      ExtendsSelf(s[k].fields);
    }
  }

  /**
   * The template's keys survive: every key of the target is in the result,
   * and an object in the target that the source leaves out or overrides with
   * another object is still an object with at least the target's keys.
   */
  lemma MergeKeepsShape(target: map<string, JValue>, source: map<string, JValue>, k: string)
    requires k in target
    ensures k in MergeInto(target, source)
    ensures target[k].JObj? && (k !in source || source[k].JObj?) ==>
              MergeInto(target, source)[k].JObj? && target[k].fields.Keys <= MergeInto(target, source)[k].fields.Keys
  {
  }

  /** With an empty payload the result is the template itself. */
  lemma MergeEmpty(target: map<string, JValue>)
    ensures MergeInto(target, map[]) == target
  {
  }

  /** Merging a record over itself changes nothing. */
  lemma {:induction false} MergeSelf(target: map<string, JValue>)
    ensures MergeInto(target, target) == target
    decreases JObj(target)
  {
    forall k | k in target && target[k].JObj?
      ensures MergeInto(target[k].fields, target[k].fields) == target[k].fields
    {
      MergeSelf(target[k].fields);
    }
  }

  /** Merging the same payload a second time changes nothing. */
  lemma {:induction false} MergeIdempotent(target: map<string, JValue>, source: map<string, JValue>)
    ensures MergeInto(MergeInto(target, source), source) == MergeInto(target, source)
    decreases JObj(source)
  {
    var once := MergeInto(target, source);
    forall k | k in source && source[k].JObj? && once[k].JObj?
      ensures MergeInto(once[k].fields, source[k].fields) == once[k].fields
    {
      if k in target && target[k].JObj? {
        MergeIdempotent(target[k].fields, source[k].fields);
      } else {
        MergeSelf(source[k].fields);
      }
    }
  }

  /**
   * The merged record always has the seven top-level keys of the template,
   * and the three object-valued sections keep their fields unless the
   * payload replaces them with something that is not an object.
   */
  lemma DefaultsComplete(payload: map<string, JValue>)
    ensures DefaultTemplate.Keys <= MergeInto(DefaultTemplate, payload).Keys
    ensures forall k :: k in DefaultTemplate && DefaultTemplate[k].JObj? && (k !in payload || payload[k].JObj?) ==>
              MergeInto(DefaultTemplate, payload)[k].JObj? &&
              DefaultTemplate[k].fields.Keys <= MergeInto(DefaultTemplate, payload)[k].fields.Keys
  {
    forall k | k in DefaultTemplate
      ensures k in MergeInto(DefaultTemplate, payload)
      ensures DefaultTemplate[k].JObj? && (k !in payload || payload[k].JObj?) ==>
                MergeInto(DefaultTemplate, payload)[k].JObj? &&
                DefaultTemplate[k].fields.Keys <= MergeInto(DefaultTemplate, payload)[k].fields.Keys
    {
      MergeKeepsShape(DefaultTemplate, payload, k);
    }
  }
}
