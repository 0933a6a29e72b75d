/**
 * app/services/llm_service.py, `_coerce_to_text` and `_extract_json_string`:
 * flattening the chat model's message content to one string, then cutting
 * the JSON object out of it.
 */
module ResponseText {
  import opened Json
  import opened Strings
  import opened Outcomes

  /** The text one element of list-shaped content contributes: a string, or a `{"text": <string>}` part. */
  function PartText(item: JValue): Option<string> {
    match item
    case JStr(s) => Some(s)
    case JObj(fields) => if "text" in fields && fields["text"].JStr? then Some(fields["text"].s) else None
    case _ => None
  }

  /** The texts of the contributing elements, in list order; the other elements are skipped. */
  function TextParts(items: seq<JValue>): seq<string> {
    if items == [] then []
    else
      var prefix := TextParts(items[..|items| - 1]);
      match PartText(items[|items| - 1])
      case Some(text) => prefix + [text]
      case None => prefix
  }

  /**
   * What `_coerce_to_text` returns for the content. `dumps` stands for
   * `json.dumps(..., ensure_ascii=True)` and `str` for Python's `str()`.
   */
  function CoercedText(content: JValue, dumps: JValue -> string, str: JValue -> string): string {
    match content
    case JNull => ""
    case JStr(s) => s
    case JObj(fields) => if "text" in fields && fields["text"].JStr? then fields["text"].s else dumps(content)
    case JArr(items) => if TextParts(items) != [] then Join(TextParts(items), '\n') else str(content)
    case _ => str(content)
  }

  /** `_coerce_to_text`, collecting the parts of list-shaped content in a loop. */
  method CoerceToText(content: JValue, dumps: JValue -> string, str: JValue -> string) returns (text: string)
    ensures text == CoercedText(content, dumps, str)
  {
    if content.JNull? {
      return "";
    }
    if content.JStr? {
      return content.s;
    }
    if content.JObj? && "text" in content.fields {
      var value := content.fields["text"];
      if value.JStr? {
        return value.s;
      }
    }
    if content.JObj? {
      return dumps(content);
    }
    if content.JArr? {
      var items := content.items;
      var parts: seq<string> := [];
      var i := 0;
      while i < |items|
        invariant 0 <= i <= |items|
        invariant parts == TextParts(items[..i])
      {
        var item := items[i];
        if item.JStr? {
          parts := parts + [item.s];
        } else if item.JObj? && "text" in item.fields && item.fields["text"].JStr? {
          parts := parts + [item.fields["text"].s];
        }
        assert items[..i + 1][..i] == items[..i];
        i := i + 1;
      }
      assert items[..i] == items;
      if parts != [] {
        return Join(parts, '\n');
      }
    }
    return str(content);
  }

  /** Collecting parts distributes over concatenation of the content list. */
  lemma {:induction false} TextPartsAppend(a: seq<JValue>, b: seq<JValue>)
    ensures TextParts(a + b) == TextParts(a) + TextParts(b)
    decreases |b|
  {
    if b == [] {
      assert a + b == a;
    } else {
      var b' := b[..|b| - 1];
      assert (a + b)[..|a + b| - 1] == a + b';
      TextPartsAppend(a, b');
    }
  }

  /** An element that is neither a string nor a `{"text": <string>}` part leaves the text unchanged. */
  lemma OtherItemsSkipped(a: seq<JValue>, x: JValue, b: seq<JValue>)
    requires PartText(x) == None
    ensures TextParts(a + [x] + b) == TextParts(a + b)
  {
    TextPartsAppend(a + [x], b);
    TextPartsAppend(a, b);
    assert (a + [x])[..|a|] == a;
  }

  /** A list of plain strings comes out as those strings joined by newlines, in order. */
  lemma {:induction false} TextPartsOfStrings(items: seq<JValue>)
    requires forall k :: 0 <= k < |items| ==> items[k].JStr?
    ensures |TextParts(items)| == |items|
    ensures forall k :: 0 <= k < |items| ==> TextParts(items)[k] == items[k].s
  {
    if items != [] {
      TextPartsOfStrings(items[..|items| - 1]);
    }
  }

  /**
   * Lines round trip: when no part holds a newline, splitting the coerced
   * text of list content at newlines gives back exactly the collected parts.
   */
  lemma CoercedLinesRoundTrip(items: seq<JValue>, dumps: JValue -> string, str: JValue -> string)
    requires TextParts(items) != []
    requires forall p :: p in TextParts(items) ==> '\n' !in p
    ensures Split(CoercedText(JArr(items), dumps, str), '\n') == TextParts(items)
  {
    SplitJoin(TextParts(items), '\n');
  }

  predicate IsBrace(c: char) {
    c == '{' || c == '}'
  }

  /** `s` opens with `{` and closes with a separate `}`. */
  predicate IsBraced(s: string) {
    2 <= |s| && s[0] == '{' && s[|s| - 1] == '}'
  }

  /** `s` holds no brace. */
  predicate NoBrace(s: string) {
    forall k :: 0 <= k < |s| ==> !IsBrace(s[k])
  }

  const JsonFence := "```json"
  const Fence := "```"

  /** Lines 209-212: drop a leading ```json fence, or else a leading ``` fence. */
  function DropOpeningFence(s: string): string {
    if StartsWith(s, JsonFence) then s[|JsonFence|..]
    else if StartsWith(s, Fence) then s[|Fence|..]
    else s
  }

  /** Lines 213-214: drop a trailing ``` fence. */
  function DropClosingFence(s: string): string {
    if EndsWith(s, Fence) then s[..|s| - |Fence|] else s
  }

  /** Lines 208-215: strip, drop the fences, strip again. */
  function Unfence(raw: string): string {
    Strip(DropClosingFence(DropOpeningFence(Strip(raw))))
  }

  /**
   * Lines 216-218: the stretch from the first `{` to the last `}`, when
   * both occur and the `}` comes after the `{`.
   */
  function BraceSpanOf(s: string): Option<string> {
    var start := IndexOf(s, '{');
    var end := LastIndexOf(s, '}');
    if start != -1 && end != -1 && end > start then Some(s[start..end + 1]) else None
  }

  /** Line 219: cut the cleaned text down to its brace span, if it has one. */
  function BraceSpan(cleaned: string): string {
    match BraceSpanOf(cleaned)
    case Some(span) => span
    case None => cleaned
  }

  /** `_extract_json_string`: the unfenced text, cut down to its brace span. */
  function ExtractJsonString(raw: string): string {
    BraceSpan(Unfence(raw))
  }

  /** Dropping the opening fence keeps a suffix. */
  lemma OpeningFenceIsSuffix(s: string) returns (a: int)
    ensures IsSlice(DropOpeningFence(s), s, a, |s|)
  {
    a := if StartsWith(s, JsonFence) then |JsonFence| else if StartsWith(s, Fence) then |Fence| else 0;
  }

  /** Dropping the closing fence keeps a prefix. */
  lemma ClosingFenceIsPrefix(s: string) returns (b: int)
    ensures IsSlice(DropClosingFence(s), s, 0, b)
  {
    b := if EndsWith(s, Fence) then |s| - |Fence| else |s|;
  }

  /** Stripping keeps a contiguous stretch. */
  lemma StripIsSlice(s: string) returns (i: int, j: int)
    ensures IsSlice(Strip(s), s, i, j)
  {
    i, j := StripBounds(s);
  }

  /** The unfenced text is a contiguous stretch of the stripped input. */
  lemma UnfenceIsSlice(raw: string) returns (i: int, j: int)
    ensures IsSlice(Unfence(raw), Strip(raw), i, j)
  {
    var x := Strip(raw);
    var y := DropOpeningFence(x);
    var z := DropClosingFence(y);
    var a := OpeningFenceIsSuffix(x);
    var b := ClosingFenceIsPrefix(y);
    var c, e := StripIsSlice(z);
    i, j := SlicesChain(x, y, z, Strip(z), a, b, c, e);
  }

  /** A suffix, then a prefix, then a slice of that: a slice of the whole. */
  lemma SlicesChain(x: string, y: string, z: string, w: string, a: int, b: int, c: int, e: int) returns (i: int, j: int)
    requires IsSlice(y, x, a, |x|) && IsSlice(z, y, 0, b) && IsSlice(w, z, c, e)
    ensures IsSlice(w, x, i, j)
  {
    var f, g := SliceOfSlice(x, y, z, a, |x|, 0, b);
    i, j := SliceOfSlice(x, z, w, f, g, c, e);
  }

  /** Cutting to the brace span keeps a contiguous stretch. */
  lemma BraceSpanIsSlice(cleaned: string) returns (i: int, j: int)
    ensures IsSlice(BraceSpan(cleaned), cleaned, i, j)
  {
    var start := IndexOf(cleaned, '{');
    var end := LastIndexOf(cleaned, '}');
    if start != -1 && end != -1 && end > start {
      i, j := start, end + 1;
    } else {
      i, j := 0, |cleaned|;
    }
  }

  /**
   * Whatever the input, the extracted text is a contiguous stretch of the
   * stripped input: nothing is added, reordered or rewritten.
   */
  lemma ExtractIsSlice(raw: string) returns (i: int, j: int)
    ensures IsSlice(ExtractJsonString(raw), Strip(raw), i, j)
  {
    var a, b := UnfenceIsSlice(raw);
    var c, e := BraceSpanIsSlice(Unfence(raw));
    i, j := SliceOfSlice(Strip(raw), Unfence(raw), ExtractJsonString(raw), a, b, c, e);
  }

  /** The extracted string never starts or ends with whitespace. */
  lemma ExtractIsStripped(raw: string)
    ensures IsStripped(ExtractJsonString(raw))
  {
    UnfenceIsStripped(raw);
    BraceSpanKeepsStripped(Unfence(raw));
  }

  lemma UnfenceIsStripped(raw: string)
    ensures IsStripped(Unfence(raw))
  {
  }

  lemma BraceSpanKeepsStripped(cleaned: string)
    requires IsStripped(cleaned)
    ensures IsStripped(BraceSpan(cleaned))
  {
    if BraceSpanOf(cleaned).Some? {
      SpanOfBraceSpanOf(cleaned);
      BracedIsStripped(BraceSpanOf(cleaned).value);
    }
  }

  /** Braces are not whitespace. */
  lemma BracedIsStripped(s: string)
    requires IsBraced(s)
    ensures IsStripped(s)
  {
  }

  /** A brace span opens with `{` and closes with `}`. */
  lemma SpanOfBraceSpanOf(s: string)
    requires BraceSpanOf(s).Some?
    ensures IsBraced(BraceSpanOf(s).value)
  {
  }

  /** Text outside `[a, b)` holds no brace. */
  predicate BraceFreeOutside(x: string, a: int, b: int) {
    && 0 <= a <= b <= |x|
    && (forall k :: 0 <= k < a ==> !IsBrace(x[k]))
    && (forall k :: b <= k < |x| ==> !IsBrace(x[k]))
  }

  /** `y` is the stretch of `x` that starts at index `a`. */
  predicate IsStretch(x: string, y: string, a: int) {
    0 <= a && a + |y| <= |x| && forall k :: 0 <= k < |y| ==> y[k] == x[a + k]
  }

  /** Cutting away brace-free text moves the first `{` back by the cut. */
  lemma CutKeepsFirstOpen(x: string, y: string, a: int)
    requires IsStretch(x, y, a) && BraceFreeOutside(x, a, a + |y|)
    ensures IndexOf(x, '{') == -1 ==> IndexOf(y, '{') == -1
    ensures IndexOf(x, '{') != -1 ==> a <= IndexOf(x, '{') < a + |y| && IndexOf(y, '{') == IndexOf(x, '{') - a
  {
    var f := IndexOf(x, '{');
    if f != -1 {
      assert IsBrace(x[f]);
      IndexOfAt(y, '{', f - a);
    } else {
      assert '{' !in y;
    }
  }

  /** Cutting away brace-free text moves the last `}` back by the cut. */
  lemma CutKeepsLastClose(x: string, y: string, a: int)
    requires IsStretch(x, y, a) && BraceFreeOutside(x, a, a + |y|)
    ensures LastIndexOf(x, '}') == -1 ==> LastIndexOf(y, '}') == -1
    ensures LastIndexOf(x, '}') != -1 ==> a <= LastIndexOf(x, '}') < a + |y| && LastIndexOf(y, '}') == LastIndexOf(x, '}') - a
  {
    var l := LastIndexOf(x, '}');
    if l != -1 {
      assert IsBrace(x[l]);
      LastIndexOfAt(y, '}', l - a);
    } else {
      assert '}' !in y;
    }
  }

  /** When both braces of `y` sit `a` places before those of `x`, the spans agree. */
  lemma ShiftedBracesSameSpan(x: string, y: string, a: int)
    requires IsStretch(x, y, a)
    requires IndexOf(x, '{') == -1 ==> IndexOf(y, '{') == -1
    requires IndexOf(x, '{') != -1 ==> a <= IndexOf(x, '{') < a + |y| && IndexOf(y, '{') == IndexOf(x, '{') - a
    requires LastIndexOf(x, '}') == -1 ==> LastIndexOf(y, '}') == -1
    requires LastIndexOf(x, '}') != -1 ==> a <= LastIndexOf(x, '}') < a + |y| && LastIndexOf(y, '}') == LastIndexOf(x, '}') - a
    ensures BraceSpanOf(y) == BraceSpanOf(x)
  {
    var f, l := IndexOf(x, '{'), LastIndexOf(x, '}');
    if f != -1 && l != -1 && l > f {
      StretchSlice(x, y, a, f, l + 1);
    }
  }

  /** A slice of a stretch is the matching slice of the whole. */
  lemma StretchSlice(x: string, y: string, a: int, i: int, j: int)
    requires IsStretch(x, y, a) && a <= i <= j <= a + |y|
    ensures y[i - a..j - a] == x[i..j]
  {
  }

  /** Cutting away brace-free text on either side does not change the brace span. */
  lemma CutKeepsBraceSpan(x: string, a: int, b: int)
    requires BraceFreeOutside(x, a, b)
    ensures BraceSpanOf(x[a..b]) == BraceSpanOf(x)
  {
    var y := x[a..b];
    assert IsStretch(x, y, a);
    CutKeepsFirstOpen(x, y, a);
    CutKeepsLastClose(x, y, a);
    ShiftedBracesSameSpan(x, y, a);
  }

  lemma StripKeepsBraceSpan(s: string)
    ensures BraceSpanOf(Strip(s)) == BraceSpanOf(s)
  {
    var i, j := StripBounds(s);
    CutKeepsBraceSpan(s, i, j);
  }

  /** Cutting a brace-free prefix off `s` keeps its brace span. */
  lemma PrefixCutKeepsBraceSpan(s: string, n: nat)
    requires n <= |s| && NoBrace(s[..n])
    ensures BraceSpanOf(s[n..]) == BraceSpanOf(s)
  {
    assert forall k :: 0 <= k < n ==> s[..n][k] == s[k];
    CutKeepsBraceSpan(s, n, |s|);
    assert s[n..|s|] == s[n..];
  }

  /** Cutting a brace-free suffix off `s` keeps its brace span. */
  lemma SuffixCutKeepsBraceSpan(s: string, n: nat)
    requires n <= |s| && NoBrace(s[n..])
    ensures BraceSpanOf(s[..n]) == BraceSpanOf(s)
  {
    assert forall k :: n <= k < |s| ==> s[n..][k - n] == s[k];
    CutKeepsBraceSpan(s, 0, n);
    assert s[0..n] == s[..n];
  }

  lemma OpeningFenceKeepsBraceSpan(s: string)
    ensures BraceSpanOf(DropOpeningFence(s)) == BraceSpanOf(s)
  {
    if StartsWith(s, JsonFence) {
      assert NoBrace(JsonFence);
      PrefixCutKeepsBraceSpan(s, |JsonFence|);
    } else if StartsWith(s, Fence) {
      assert NoBrace(Fence);
      PrefixCutKeepsBraceSpan(s, |Fence|);
    }
  }

  lemma ClosingFenceKeepsBraceSpan(s: string)
    ensures BraceSpanOf(DropClosingFence(s)) == BraceSpanOf(s)
  {
    if EndsWith(s, Fence) {
      assert NoBrace(Fence);
      SuffixCutKeepsBraceSpan(s, |s| - |Fence|);
    }
  }

  /**
   * Unfencing drops only whitespace and fence markers, which hold no brace,
   * so the brace span of the raw text survives it unchanged.
   */
  lemma UnfenceKeepsBraceSpan(raw: string)
    ensures BraceSpanOf(Unfence(raw)) == BraceSpanOf(raw)
  {
    var s1 := Strip(raw);
    var s2 := DropOpeningFence(s1);
    var s3 := DropClosingFence(s2);
    StripKeepsBraceSpan(raw);
    OpeningFenceKeepsBraceSpan(s1);
    ClosingFenceKeepsBraceSpan(s2);
    StripKeepsBraceSpan(s3);
  }

  /**
   * Whenever the raw text has a `{` before its last `}`, the extracted string
   * runs exactly from the first `{` to the last `}` of the raw text: leading
   * and trailing prose and fences are cut away.
   */
  lemma ExtractSpansBraces(raw: string)
    requires IndexOf(raw, '{') != -1 && LastIndexOf(raw, '}') > IndexOf(raw, '{')
    ensures ExtractJsonString(raw) == raw[IndexOf(raw, '{')..LastIndexOf(raw, '}') + 1]
  {
    UnfenceKeepsBraceSpan(raw);
    ExtractIsBraceSpan(raw);
    BraceSpanOfPair(raw);
  }

  lemma BraceSpanOfPair(s: string)
    requires IndexOf(s, '{') != -1 && LastIndexOf(s, '}') > IndexOf(s, '{')
    ensures BraceSpanOf(s) == Some(s[IndexOf(s, '{')..LastIndexOf(s, '}') + 1])
  {
  }

  /** The extracted string is the brace span of the unfenced text, when it has one. */
  lemma ExtractIsBraceSpan(raw: string)
    ensures BraceSpanOf(Unfence(raw)).Some? ==> ExtractJsonString(raw) == BraceSpanOf(Unfence(raw)).value
    ensures BraceSpanOf(Unfence(raw)).None? ==> ExtractJsonString(raw) == Unfence(raw)
  {
  }

  /**
   * Without such a pair the text is only unfenced and stripped: no error is
   * raised here, and prose without braces is handed on as it is.
   */
  lemma ExtractWithoutBraces(raw: string)
    requires BraceSpanOf(raw) == None
    ensures ExtractJsonString(raw) == Unfence(raw)
  {
    UnfenceKeepsBraceSpan(raw);
    ExtractIsBraceSpan(raw);
  }

  /** Whitespace-only text, the empty string included, extracts to the empty string. */
  lemma BlankExtractsEmpty(raw: string)
    requires AllSpace(raw)
    ensures ExtractJsonString(raw) == ""
  {
    StripEmpty(raw);
    StripEmpty("");
  }

  /** The first `{` of `p + obj + q` is the one opening `obj`, when `p` holds no brace. */
  lemma FirstOpenAfter(p: string, obj: string, q: string)
    requires NoBrace(p) && obj != [] && obj[0] == '{'
    ensures IndexOf(p + obj + q, '{') == |p|
  {
    var s := p + obj + q;
    assert s[|p|] == '{';
    assert forall k :: 0 <= k < |p| ==> s[k] == p[k];
    IndexOfAt(s, '{', |p|);
  }

  /** The last `}` of `p + obj + q` is the one closing `obj`, when `q` holds no brace. */
  lemma LastCloseBefore(p: string, obj: string, q: string)
    requires NoBrace(q) && obj != [] && obj[|obj| - 1] == '}'
    ensures LastIndexOf(p + obj + q, '}') == |p| + |obj| - 1
  {
    var s := p + obj + q;
    assert s[|p| + |obj| - 1] == '}';
    assert forall k :: |p| + |obj| <= k < |s| ==> s[k] == q[k - |p| - |obj|];
    LastIndexOfAt(s, '}', |p| + |obj| - 1);
  }

  /** Whitespace holds no brace, and neither does a fence. */
  lemma SpacesAndFencesHoldNoBrace(before: string, after: string)
    requires AllSpace(before) && AllSpace(after)
    ensures NoBrace(JsonFence + before) && NoBrace(after + Fence)
  {
    var p, q := JsonFence + before, after + Fence;
    assert forall k :: 0 <= k < |p| ==> p[k] == if k < |JsonFence| then JsonFence[k] else before[k - |JsonFence|];
    assert forall k :: 0 <= k < |q| ==> q[k] == if k < |after| then after[k] else Fence[k - |after|];
  }

  /**
   * A JSON object wrapped in a ```json fence, with any whitespace around it,
   * comes out as the object alone.
   */
  lemma FencedObject(obj: string, before: string, after: string)
    requires IsBraced(obj)
    requires AllSpace(before) && AllSpace(after)
    ensures ExtractJsonString(JsonFence + before + obj + after + Fence) == obj
  {
    var p, q := JsonFence + before, after + Fence;
    var raw := p + obj + q;
    assert raw == JsonFence + before + obj + after + Fence;
    SpacesAndFencesHoldNoBrace(before, after);
    FirstOpenAfter(p, obj, q);
    LastCloseBefore(p, obj, q);
    ExtractSpansBraces(raw);
    assert raw[|p|..|p| + |obj|] == obj;
  }

  /** Text that already runs from a `{` to a `}` comes back as it is. */
  lemma ExtractOfBraced(s: string)
    requires IsBraced(s)
    ensures ExtractJsonString(s) == s
  {
    BracedIsWholeSpan(s);
    ExtractSpansBraces(s);
  }

  lemma BracedIsWholeSpan(s: string)
    requires IsBraced(s)
    ensures IndexOf(s, '{') == 0 && LastIndexOf(s, '}') == |s| - 1
    ensures s[IndexOf(s, '{')..LastIndexOf(s, '}') + 1] == s
  {
    IndexOfAt(s, '{', 0);
    LastIndexOfAt(s, '}', |s| - 1);
  }

  /** Extracting again from an extracted object changes nothing. */
  lemma ExtractIdempotent(raw: string)
    requires IndexOf(raw, '{') != -1 && LastIndexOf(raw, '}') > IndexOf(raw, '{')
    ensures ExtractJsonString(ExtractJsonString(raw)) == ExtractJsonString(raw)
  {
    ExtractedIsBraced(raw);
    ExtractOfBraced(ExtractJsonString(raw));
  }

  /** Whenever the raw text has a `{` before its last `}`, the extracted string opens and closes with them. */
  lemma ExtractedIsBraced(raw: string)
    requires IndexOf(raw, '{') != -1 && LastIndexOf(raw, '}') > IndexOf(raw, '{')
    ensures IsBraced(ExtractJsonString(raw))
  {
    ExtractSpansBraces(raw);
    SpanIsBraced(raw);
  }

  /** The stretch from the first `{` to the last `}` opens and closes with them. */
  lemma SpanIsBraced(s: string)
    requires IndexOf(s, '{') != -1 && LastIndexOf(s, '}') > IndexOf(s, '{')
    ensures IsBraced(s[IndexOf(s, '{')..LastIndexOf(s, '}') + 1])
  {
  }
}
