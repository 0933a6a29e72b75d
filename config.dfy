/**
 * app/core/config.py: the service settings, of which the model keeps the
 * parsing of the comma-separated list of accepted upload types.
 */
module Config {
  import opened Strings

  /** The settings read from the environment (loading them is not modelled). */
  datatype Settings = Settings(
    groqApiKey: string,
    internalApiKey: string,
    maxFileSizeMb: int,
    allowedFileTypes: string)
  {
    /**
     * `allowed_file_type_set`: every comma-separated piece of
     * `allowedFileTypes`, stripped and lower-cased, with the blank pieces
     * dropped.
     */
    function AllowedFileTypeSet(): (r: set<string>)
      ensures forall e :: e in r ==> IsTypeName(e)
    {
      var pieces := Split(allowedFileTypes, ',');
      assert forall p :: p in pieces && Strip(p) != "" ==> IsTypeName(Normalized(p)) by {
        forall p | p in pieces && Strip(p) != "" ensures IsTypeName(Normalized(p)) {
          NormalizedIsTypeName(p);
        }
      }
      set p | p in pieces && Strip(p) != "" :: Normalized(p)
    }
  }

  /** Non-empty, lower-case, no whitespace at either end, no comma. */
  predicate IsTypeName(e: string) {
    e != "" && IsLowerCase(e) && IsStripped(e) && ',' !in e
  }

  /** A piece with its whitespace stripped and its letters lower-cased. */
  function Normalized(p: string): string {
    Lower(Strip(p))
  }

  /** Lower-casing turns no character into whitespace or a comma. */
  lemma LowerCharKeeps(c: char)
    ensures IsSpace(LowerChar(c)) <==> IsSpace(c)
    ensures LowerChar(c) == ',' <==> c == ','
  {
  }

  /** Stripping adds no comma. */
  lemma StripKeepsNoComma(p: string)
    requires ',' !in p
    ensures ',' !in Strip(p)
  {
    var i, j := StripBounds(p);
    var s := Strip(p);
    assert forall k :: 0 <= k < |s| ==> s[k] == p[i + k];
  }

  /** Lower-casing keeps a stripped string stripped. */
  lemma LowerKeepsStripped(s: string)
    requires IsStripped(s)
    ensures IsStripped(Lower(s))
  {
    if s != [] {
      LowerCharKeeps(s[0]);
      LowerCharKeeps(s[|s| - 1]);
      assert Lower(s)[0] == LowerChar(s[0]);
      assert Lower(s)[|s| - 1] == LowerChar(s[|s| - 1]);
    }
  }

  /** Lower-casing adds no comma. */
  lemma LowerKeepsNoComma(s: string)
    requires ',' !in s
    ensures ',' !in Lower(s)
  {
    forall k | 0 <= k < |s| ensures Lower(s)[k] != ',' {
      LowerCharKeeps(s[k]);
      assert Lower(s)[k] == LowerChar(s[k]);
    }
  }

  /** A non-blank piece without a comma normalises to a type name. */
  lemma NormalizedIsTypeName(p: string)
    requires ',' !in p && Strip(p) != ""
    ensures IsTypeName(Normalized(p))
  {
    StripKeepsNoComma(p);
    LowerKeepsStripped(Strip(p));
    LowerKeepsNoComma(Strip(p));
  }

  /**
   * Membership in both directions: a type is allowed exactly when some
   * non-blank piece of the setting normalises to it.
   */
  lemma AllowedFileTypeSetMembers(settings: Settings, e: string)
    ensures e in settings.AllowedFileTypeSet() <==>
            exists p :: p in Split(settings.allowedFileTypes, ',') && Strip(p) != "" && e == Normalized(p)
  {
  }

  /** A setting made only of commas and whitespace (`""`, `", ,"`) allows nothing. */
  lemma BlankSettingAllowsNothing(settings: Settings)
    requires forall c :: c in settings.allowedFileTypes ==> c == ',' || IsSpace(c)
    ensures settings.AllowedFileTypeSet() == {}
  {
    var s := settings.allowedFileTypes;
    var pieces := Split(s, ',');
    forall p | p in pieces ensures Strip(p) == "" {
      PieceCharsInSetting(s, p);
      assert ',' !in p;
      forall k | 0 <= k < |p| ensures IsSpace(p[k]) {
        assert p[k] in p;
      }
      StripEmpty(p);
    }
    assert (set p | p in pieces && Strip(p) != "" :: Normalized(p)) == {};
  }

  /** Every character of a piece of a split occurs in the split string. */
  lemma {:induction false} PieceCharsInSetting(s: string, p: string)
    requires p in Split(s, ',')
    ensures forall c :: c in p ==> c in s
    decreases |s|
  {
    var i := IndexOf(s, ',');
    if i != -1 && p != s[..i] {
      PieceCharsInSetting(s[i + 1..], p);
      assert forall c :: c in s[i + 1..] ==> c in s;
    }
  }

  /**
   * Written out as comma-joined pieces, the setting allows exactly the
   * normalised non-blank pieces.
   */
  lemma JoinedSettingAllows(settings: Settings, pieces: seq<string>)
    requires |pieces| >= 1 && forall p :: p in pieces ==> ',' !in p
    requires settings.allowedFileTypes == Join(pieces, ',')
    ensures settings.AllowedFileTypeSet() == set p | p in pieces && Strip(p) != "" :: Normalized(p)
  {
    SplitJoin(pieces, ',');
  }

  /**
   * Case and whitespace variants of one type collapse into a single entry:
   * `"pdf, PDF"` allows just `"pdf"`.
   */
  lemma CaseVariantsCollapse(settings: Settings, p: string, q: string)
    requires ',' !in p && ',' !in q && Strip(p) != ""
    requires Normalized(p) == Normalized(q)
    requires settings.allowedFileTypes == p + "," + q
    ensures settings.AllowedFileTypeSet() == {Normalized(p)}
  {
    assert Join([p, q], ',') == p + "," + q;
    JoinedSettingAllows(settings, [p, q]);
    assert Strip(q) != "" by {
      assert |Normalized(q)| == |Strip(q)|;
    }
  }
}
