/** Recognising the one failure that the rewrite repairs: a `TypeError`
    raised because `|` is not supported between two operand types. */
module Classifier {
  import opened Native

  /** The start of CPython's message for `|` on unsupported operands. */
  const UnsupportedOrPrefix: string := "unsupported operand type(s) for |: "

  /** `s.startswith(p)`, compared character by character. */
  function StartsWith(s: string, p: string): (r: bool)
    ensures r <==> |p| <= |s| && s[..|p|] == p
  {
    if |p| == 0 then true
    else if |s| == 0 then false
    else s[0] == p[0] && StartsWith(s[1..], p[1..])
  }

  /** `is_unsupported_types_for_union_error`: true exactly when the
      message of `e` begins with the unsupported-`|` prefix. The class of
      `e` is not looked at; callers only pass errors they caught as
      `TypeError`. */
  function IsUnsupportedTypesForUnionError(e: Err): (r: bool)
    ensures r <==> |UnsupportedOrPrefix| <= |e.msg| && e.msg[..|UnsupportedOrPrefix|] == UnsupportedOrPrefix
  {
    StartsWith(e.msg, UnsupportedOrPrefix)
  }

  /** An error that an `except TypeError` clause catches and the
      classifier accepts: the only error that triggers the rewrite. */
  predicate IsUnionFallbackError(e: Err) {
    e.kind == TypeError && IsUnsupportedTypesForUnionError(e)
  }

  /** Every `TypeError` whose message starts with the prefix qualifies,
      whatever the operand types named after it. */
  lemma PrefixedTypeErrorQualifies(rest: string)
    ensures IsUnionFallbackError(Err(TypeError, UnsupportedOrPrefix + rest))
  {
    assert (UnsupportedOrPrefix + rest)[..|UnsupportedOrPrefix|] == UnsupportedOrPrefix;
  }

  /** The prefix has no proper border: apart from its first character, its
      only `u` is the one at index 3, and that one is not followed by `n`. */
  lemma PrefixHasNoProperBorder(k: nat)
    requires 0 < k < |UnsupportedOrPrefix|
    ensures exists i :: k <= i < |UnsupportedOrPrefix| && UnsupportedOrPrefix[i] != UnsupportedOrPrefix[i - k]
  {
    var p := UnsupportedOrPrefix;
    if k == 3 {
      assert p[4] != p[1];
    } else {
      assert p[k] != p[0];
    }
  }

  /** Text in front of a border-free prefix hides it, unless that text
      itself starts with the prefix. */
  lemma LeadHidesPrefix(lead: string, p: string)
    requires |lead| > 0 && !StartsWith(lead, p)
    requires |lead| < |p| ==> exists i :: |lead| <= i < |p| && p[i] != p[i - |lead|]
    ensures !StartsWith(lead + p, p)
  {
    var m := lead + p;
    if |lead| >= |p| {
      assert m[..|p|] == lead[..|p|];
    } else {
      var i :| |lead| <= i < |p| && p[i] != p[i - |lead|];
      assert m[i] == p[i - |lead|];
      assert m[..|p|][i] != p[i];
    }
  }

  /** A message that only mentions the prefix after other leading text does
      not qualify, unless that leading text itself starts with the prefix. */
  lemma PrefixMustLeadTheMessage(e: Err, lead: string)
    requires |lead| > 0 && !StartsWith(lead, UnsupportedOrPrefix)
    requires e.msg == lead + UnsupportedOrPrefix
    ensures !IsUnsupportedTypesForUnionError(e)
  {
    if |lead| < |UnsupportedOrPrefix| {
      PrefixHasNoProperBorder(|lead|);
    }
    LeadHidesPrefix(lead, UnsupportedOrPrefix);
  }
}
