/**
 * app/services/llm_service.py, `_normalize_url` and `_normalize_urls_in_data`:
 * every link the record carries is either `None` or a trimmed URL with a
 * protocol.
 */
module Urls {
  import opened Json
  import opened Strings

  /** The prefixes `_normalize_url` accepts as a protocol (line 137). */
  predicate HasProtocol(s: string) {
    StartsWith(s, "http://") || StartsWith(s, "https://") || StartsWith(s, "ftp://")
  }

  /** What a link field may hold once normalised: `None`, or a trimmed, non-empty URL with a protocol. */
  predicate IsNormalLink(v: JValue) {
    v.JNull? || (v.JStr? && v.s != "" && IsStripped(v.s) && HasProtocol(v.s))
  }

  /**
   * `_normalize_url` (lines 127-141): `None` for anything that is not a
   * non-blank string; otherwise the trimmed text, with `https://` put in
   * front when it has none of the three protocols.
   */
  function NormalizeUrl(url: JValue): (r: JValue)
    ensures r.JNull? <==> !url.JStr? || Strip(url.s) == ""
    ensures r.JStr? ==> HasProtocol(r.s)
    ensures r.JStr? && HasProtocol(Strip(url.s)) ==> r.s == Strip(url.s)
    ensures r.JStr? && !HasProtocol(Strip(url.s)) ==> r.s == "https://" + Strip(url.s)
  {
    if !url.JStr? || url.s == "" then JNull
    else
      var stripped := Strip(url.s);
      if stripped == "" then JNull
      else if HasProtocol(stripped) then JStr(stripped)
      else JStr("https://" + stripped)
  }

  /** Putting `https://` in front of trimmed, non-empty text leaves it trimmed. */
  lemma PrefixedIsStripped(s: string)
    requires s != "" && IsStripped(s)
    ensures IsStripped("https://" + s)
  {
    var t := "https://" + s;
    assert t[0] == 'h';
    assert t[|t| - 1] == s[|s| - 1];
  }

  /** Whatever goes in, a normal link comes out. */
  lemma NormalizeUrlIsNormal(url: JValue)
    ensures IsNormalLink(NormalizeUrl(url))
  {
    var r := NormalizeUrl(url);
    if r.JStr? && !HasProtocol(Strip(url.s)) {
      PrefixedIsStripped(Strip(url.s));
    }
  }

  /** A normal link is left as it is. */
  lemma NormalizeUrlKeepsNormal(v: JValue)
    requires IsNormalLink(v)
    ensures NormalizeUrl(v) == v
  {
    if v.JStr? {
      StripStripped(v.s);
    }
  }

  /** Normalising a link twice gives what normalising it once does. */
  lemma NormalizeUrlIdempotent(url: JValue)
    ensures NormalizeUrl(NormalizeUrl(url)) == NormalizeUrl(url)
  {
    NormalizeUrlIsNormal(url);
    NormalizeUrlKeepsNormal(NormalizeUrl(url));
  }

  /**
   * Any trimmed text without a protocol gets `https://`, whether or not it
   * looks like a URL: a placeholder such as `N/A` becomes `https://N/A`.
   */
  lemma BareTextGetsHttps(s: string)
    requires s != "" && IsStripped(s) && !HasProtocol(s)
    ensures NormalizeUrl(JStr(s)) == JStr("https://" + s)
  {
    StripStripped(s);
  }

  /** The link fields of `personal_information` (line 148). */
  const LinkKeys: seq<string> := ["linkedin", "github", "website"]

  /** One pass of the key loop (lines 148-151): a present field is normalised. */
  function NormalizeLinkAt(info: map<string, JValue>, key: string): map<string, JValue> {
    if key in info then info[key := NormalizeUrl(info[key])] else info
  }

  /** `personal_information` after the key loop has handled `keys[..n]`, in order. */
  function NormalizeLinks(info: map<string, JValue>, keys: seq<string>, n: nat): map<string, JValue>
    requires n <= |keys|
  {
    if n == 0 then info else NormalizeLinkAt(NormalizeLinks(info, keys, n - 1), keys[n - 1])
  }

  /** One project (lines 155-157): an object with a `link` gets it normalised. */
  function NormalizeProject(project: JValue): JValue {
    if project.JObj? && "link" in project.fields then
      JObj(project.fields["link" := NormalizeUrl(project.fields["link"])])
    else project
  }

  /** Every project of the list, each in its place. */
  function NormalizeProjects(projects: seq<JValue>): seq<JValue> {
    seq(|projects|, j requires 0 <= j < |projects| => NormalizeProject(projects[j]))
  }

  /** What `_normalize_urls_in_data` leaves in the record. */
  function NormalizedUrls(data: map<string, JValue>): map<string, JValue> {
    var withInfo :=
      if "personal_information" in data && data["personal_information"].JObj? then
        data["personal_information" := JObj(NormalizeLinks(data["personal_information"].fields, LinkKeys, |LinkKeys|))]
      else data;
    if "projects" in withInfo && withInfo["projects"].JArr? then
      withInfo["projects" := JArr(NormalizeProjects(withInfo["projects"].items))]
    else withInfo
  }

  /** The loop over the link fields of `personal_information`. */
  method NormalizeInfoLinks(info: map<string, JValue>, keys: seq<string>) returns (out: map<string, JValue>)
    ensures out == NormalizeLinks(info, keys, |keys|)
  {
    out := info;
    var i := 0;
    while i < |keys|
      invariant 0 <= i <= |keys|
      invariant out == NormalizeLinks(info, keys, i)
    {
      var key := keys[i];
      if key in out {
        out := out[key := NormalizeUrl(out[key])];
      }
      i := i + 1;
    }
  }

  /** The loop over the projects, updating each project's `link` in place. */
  method NormalizeProjectLinks(projects: seq<JValue>) returns (out: seq<JValue>)
    ensures out == NormalizeProjects(projects)
  {
    out := projects;
    var i := 0;
    while i < |out|
      invariant 0 <= i <= |out| && |out| == |projects|
      invariant forall j :: 0 <= j < i ==> out[j] == NormalizeProject(projects[j])
      invariant forall j :: i <= j < |out| ==> out[j] == projects[j]
    {
      var project := out[i];
      if project.JObj? && "link" in project.fields {
        out := out[i := JObj(project.fields["link" := NormalizeUrl(project.fields["link"])])];
      }
      i := i + 1;
    }
  }

  /** `_normalize_urls_in_data`. */
  method NormalizeUrlsInData(data: map<string, JValue>) returns (result: map<string, JValue>)
    ensures result == NormalizedUrls(data)
  {
    result := data;
    if "personal_information" in result && result["personal_information"].JObj? {
      var info := NormalizeInfoLinks(result["personal_information"].fields, LinkKeys);
      result := result["personal_information" := JObj(info)];
    }
    if "projects" in result && result["projects"].JArr? {
      var projects := NormalizeProjectLinks(result["projects"].items);
      result := result["projects" := JArr(projects)];
    }
  }

  /**
   * After the key loop has handled `keys[..n]`: the same fields, the handled
   * ones normalised once (a key listed twice is harmless, normalising being
   * idempotent) and the others untouched.
   */
  lemma {:induction false} NormalizeLinksAt(info: map<string, JValue>, keys: seq<string>, n: nat, k: string)
    requires n <= |keys|
    ensures k in NormalizeLinks(info, keys, n) <==> k in info
    ensures k in info && k in keys[..n] ==> NormalizeLinks(info, keys, n)[k] == NormalizeUrl(info[k])
    ensures k in info && k !in keys[..n] ==> NormalizeLinks(info, keys, n)[k] == info[k]
    decreases n
  {
    if n > 0 {
      NormalizeLinksAt(info, keys, n - 1, k);
      PrefixStep(keys, n, k);
      if k in info && k == keys[n - 1] && k in keys[..n - 1] {
        NormalizeUrlIdempotent(info[k]);
      }
    }
  }

  /** A project that is an object with a `link` holds a normal link there. */
  predicate ProjectLinkIsNormal(project: JValue) {
    project.JObj? && "link" in project.fields ==> IsNormalLink(project.fields["link"])
  }

  /** Every link the record carries, in `personal_information` and in each project. */
  predicate LinksAreNormal(data: map<string, JValue>) {
    && ("personal_information" in data && data["personal_information"].JObj? ==>
          forall k :: k in LinkKeys && k in data["personal_information"].fields ==>
            IsNormalLink(data["personal_information"].fields[k]))
    && ("projects" in data && data["projects"].JArr? ==>
          forall j :: 0 <= j < |data["projects"].items| ==> ProjectLinkIsNormal(data["projects"].items[j]))
  }

  /** After `_normalize_urls_in_data` every link is `None` or a trimmed URL with a protocol. */
  lemma NormalizedLinksAreNormal(data: map<string, JValue>)
    ensures LinksAreNormal(NormalizedUrls(data))
  {
    var r := NormalizedUrls(data);
    if "personal_information" in data && data["personal_information"].JObj? {
      var info := data["personal_information"].fields;
      forall k | k in LinkKeys && k in r["personal_information"].fields
        ensures IsNormalLink(r["personal_information"].fields[k])
      {
        NormalizeLinksAt(info, LinkKeys, |LinkKeys|, k);
        assert LinkKeys[..|LinkKeys|] == LinkKeys;
        NormalizeUrlIsNormal(info[k]);
      }
    }
    if "projects" in data && data["projects"].JArr? {
      var projects := data["projects"].items;
      forall j | 0 <= j < |projects|
        ensures ProjectLinkIsNormal(r["projects"].items[j])
      {
        if projects[j].JObj? && "link" in projects[j].fields {
          NormalizeUrlIsNormal(projects[j].fields["link"]);
        }
      }
    }
  }

  /**
   * Only the two link-bearing sections change, and only when they have the
   * expected type: every other entry of the record keeps its value, and so
   * does a `personal_information` that is not an object or a `projects`
   * that is not a list.
   */
  lemma NormalizedUrlsKeepsOthers(data: map<string, JValue>, k: string)
    requires k == "personal_information" ==> k !in data || !data[k].JObj?
    requires k == "projects" ==> k !in data || !data[k].JArr?
    ensures k in NormalizedUrls(data) <==> k in data
    ensures k in data ==> NormalizedUrls(data)[k] == data[k]
  {
  }

  /** Inside `personal_information` only the three link fields may change, and no field appears or disappears. */
  lemma NormalizedInfoKeepsOthers(data: map<string, JValue>, k: string)
    requires "personal_information" in data && data["personal_information"].JObj?
    ensures NormalizedUrls(data)["personal_information"].JObj?
    ensures k in NormalizedUrls(data)["personal_information"].fields <==> k in data["personal_information"].fields
    ensures k in data["personal_information"].fields && k !in LinkKeys ==>
              NormalizedUrls(data)["personal_information"].fields[k] == data["personal_information"].fields[k]
  {
    NormalizeLinksAt(data["personal_information"].fields, LinkKeys, |LinkKeys|, k);
    assert LinkKeys[..|LinkKeys|] == LinkKeys;
  }

  /** A project keeps every field but `link`, and the list keeps its length and order. */
  lemma NormalizedProjectKeepsOthers(projects: seq<JValue>, j: int, k: string)
    requires 0 <= j < |projects| && projects[j].JObj? && k != "link"
    ensures |NormalizeProjects(projects)| == |projects|
    ensures NormalizeProjects(projects)[j].JObj?
    ensures k in NormalizeProjects(projects)[j].fields <==> k in projects[j].fields
    ensures k in projects[j].fields ==> NormalizeProjects(projects)[j].fields[k] == projects[j].fields[k]
  {
  }

  /** A project that is not an object, or has no `link`, is left as it is. */
  lemma NormalizedProjectSkipped(projects: seq<JValue>, j: int)
    requires 0 <= j < |projects| && !(projects[j].JObj? && "link" in projects[j].fields)
    ensures NormalizeProjects(projects)[j] == projects[j]
  {
  }

  /** The record keeps exactly its keys. */
  lemma NormalizedUrlsKeys(data: map<string, JValue>)
    ensures NormalizedUrls(data).Keys == data.Keys
  {
  }

  /** Normalising the links of a record twice gives what normalising them once does. */
  lemma NormalizedUrlsIdempotent(data: map<string, JValue>)
    ensures NormalizedUrls(NormalizedUrls(data)) == NormalizedUrls(data)
  {
    var once := NormalizedUrls(data);
    var twice := NormalizedUrls(once);
    if "personal_information" in data && data["personal_information"].JObj? {
      var info := once["personal_information"].fields;
      var again := twice["personal_information"].fields;
      forall k | k in info
        ensures k in again && again[k] == info[k]
      {
        NormalizeLinksAt(info, LinkKeys, |LinkKeys|, k);
        NormalizeLinksAt(data["personal_information"].fields, LinkKeys, |LinkKeys|, k);
        if k in LinkKeys[..|LinkKeys|] {
          NormalizeUrlIdempotent(data["personal_information"].fields[k]);
        }
      }
      forall k | k in again
        ensures k in info
      {
        NormalizeLinksAt(info, LinkKeys, |LinkKeys|, k);
      }
      assert again == info;
    }
    if "projects" in data && data["projects"].JArr? {
      var projects := once["projects"].items;
      forall j | 0 <= j < |projects|
        ensures NormalizeProject(projects[j]) == projects[j]
      {
        var p := data["projects"].items[j];
        if p.JObj? && "link" in p.fields {
          NormalizeUrlIdempotent(p.fields["link"]);
          assert projects[j].fields["link" := NormalizeUrl(projects[j].fields["link"])] == projects[j].fields;
        }
      }
      assert NormalizeProjects(projects) == projects;
    }
    assert twice == once;
  }
}
