/**
 * The JSON repair applied to language-model replies: a fixed sequence of
 * regular-expression rewrites (PCRE semantics, no modifiers), a bracket
 * balancing step, and a final validity check supplied by the caller.
 */
module JsonFixer {
  import opened Php

  /** Message of the `InvalidArgumentException` thrown when the repaired text is still invalid. */
  const InvalidFormat := "Failed to fix JSON: Invalid format."

  /** PCRE `\s`: space, tab, newline, vertical tab, form feed, carriage return. */
  predicate IsSpace(c: char)
  {
    c == ' ' || c == '\t' || c == '\n' || c == '\U{B}' || c == '\U{C}' || c == '\r'
  }

  /** PCRE `\w` without the UTF-8 modifier: ASCII letters, digits and underscore. */
  predicate IsWordChar(c: char)
  {
    ('a' <= c <= 'z') || ('A' <= c <= 'Z') || ('0' <= c <= '9') || c == '_'
  }

  /** The class `[\[\]\{\}\w\s\/\.\-:,"\']` of characters that may end a JSON fragment. */
  predicate IsJsonish(c: char)
  {
    c in "[]{}/.-:,\"'" || IsWordChar(c) || IsSpace(c)
  }

  predicate IsJunk(c: char)
  {
    !IsJsonish(c)
  }

  /** The characters of the `rtrim` step: "\n\r\t,". */
  predicate IsRTrimmed(c: char)
  {
    c == '\n' || c == '\r' || c == '\t' || c == ','
  }

  /** Length of the longest run of characters satisfying `p` that ends just before index `e`. */
  function RunBefore(s: string, e: nat, p: char -> bool): (n: nat)
    requires e <= |s|
    ensures n <= e
    ensures forall k :: e - n <= k < e ==> p(s[k])
    ensures n < e ==> !p(s[e - n - 1])
    decreases e
  {
    if e == 0 || !p(s[e - 1]) then 0 else RunBefore(s, e - 1, p) + 1
  }

  /** Length of the longest run of characters satisfying `p` at the start of `s`. */
  function RunFrom(s: string, p: char -> bool): (n: nat)
    ensures n <= |s|
    ensures forall k :: 0 <= k < n ==> p(s[k])
    ensures n < |s| ==> !p(s[n])
  {
    if s == [] || !p(s[0]) then 0 else RunFrom(s[1..], p) + 1
  }

  /**
   * Where PCRE's `$` (without the D modifier) matches last: before a final
   * newline if there is one, otherwise at the very end.
   */
  function DollarEnd(s: string): (e: nat)
    ensures e <= |s|
    ensures e == |s| || (e == |s| - 1 && s[e] == '\n')
    ensures e == |s| ==> s == [] || s[|s| - 1] != '\n'
  {
    if s != [] && s[|s| - 1] == '\n' then |s| - 1 else |s|
  }

  /** The last non-whitespace character of `s` is a closing bracket: `/\]\s*$/` matches. */
  predicate EndsInBracket(s: string)
  {
    var n := RunBefore(s, |s|, IsSpace);
    n < |s| && s[|s| - n - 1] == ']'
  }

  // ---------------------------------------------------------------------
  // Step 1: the code fence.
  // ---------------------------------------------------------------------

  /** `/^```json\s*\/` removed: only a fence tagged json, at the very start, with the whitespace after it. */
  function StripOpeningFence(s: string): (r: string)
    ensures !StartsWith(s, "```json") ==> r == s
    ensures StartsWith(s, "```json") ==>
      |r| <= |s| - 7 && r == s[|s| - |r|..]
      && (forall k :: 7 <= k < |s| - |r| ==> IsSpace(s[k]))
      && (r == [] || !IsSpace(r[0]))
  {
    if StartsWith(s, "```json") then
      var t := s[7..];
      t[RunFrom(t, IsSpace)..]
    else s
  }

  /**
   * `/\s*```$/` removed: a closing fence that ends the text (or precedes
   * its final newline), with all the whitespace before it. A final newline
   * after the fence stays, because `$` does not consume it.
   */
  function StripClosingFence(s: string): (r: string)
    ensures !EndsWith(s, "```") && !EndsWith(s, "```\n") ==> r == s
    ensures EndsWith(s, "```") || EndsWith(s, "```\n") ==>
      var e := DollarEnd(s);
      exists i :: 0 <= i <= e - 3
        && s[e - 3..e] == "```"
        && (forall k :: i <= k < e - 3 ==> IsSpace(s[k]))
        && (i == 0 || !IsSpace(s[i - 1]))
        && r == s[..i] + s[e..]
  {
    if EndsWith(s, "```") || EndsWith(s, "```\n") then
      var e := DollarEnd(s);
      FenceBeforeDollar(s);
      var f := e - 3;
      var i := f - RunBefore(s, f, IsSpace);
      s[..i] + s[e..]
    else s
  }

  /** A closing fence at the end sits just before the `$` position. */
  lemma FenceBeforeDollar(s: string)
    requires EndsWith(s, "```") || EndsWith(s, "```\n")
    ensures 3 <= DollarEnd(s) && s[DollarEnd(s) - 3..DollarEnd(s)] == "```"
  {
    var e := DollarEnd(s);
    if EndsWith(s, "```") {
      assert s[|s| - 1] == '`';
      assert e == |s|;
    } else {
      assert s[|s| - 1] == '\n';
      assert e == |s| - 1;
      assert s[e - 3..e] == s[|s| - 4..|s|][..3];
    }
  }

  // ---------------------------------------------------------------------
  // Step 2: trailing incomplete data.
  // ---------------------------------------------------------------------

  /** `rtrim(s, "\n\r\t,")`: spaces are not in the set. */
  function RTrimChars(s: string): (r: string)
    ensures |r| <= |s| && r == s[..|r|]
    ensures forall k :: |r| <= k < |s| ==> IsRTrimmed(s[k])
    ensures r == [] || !IsRTrimmed(r[|r| - 1])
    decreases |s|
  {
    if s != [] && IsRTrimmed(s[|s| - 1]) then RTrimChars(s[..|s| - 1]) else s
  }

  /** Every character of `s` from index `i` on is whitespace. */
  predicate AllSpaceFrom(s: string, i: nat)
  {
    forall k :: i <= k < |s| ==> IsSpace(s[k])
  }

  /** `/,\s*$/` removed: a comma that is the last non-whitespace character goes, with everything after it. */
  function CutTrailingComma(s: string): (r: string)
    ensures |r| <= |s| && r == s[..|r|]
    ensures r != s ==> s[|r|] == ',' && forall k :: |r| < k < |s| ==> IsSpace(s[k])
    ensures r == s ==> forall i :: 0 <= i < |s| && s[i] == ',' ==> !AllSpaceFrom(s, i + 1)
  {
    var n := RunBefore(s, |s|, IsSpace);
    if n < |s| && s[|s| - n - 1] == ',' then s[..|s| - n - 1] else s
  }

  /** `/[^...]+$/` removed: the run of non-JSON characters that ends where `$` matches. */
  function CutTrailingJunk(s: string): (r: string)
    ensures
      var e := DollarEnd(s);
      exists i :: 0 <= i <= e
        && (forall k :: i <= k < e ==> IsJunk(s[k]))
        && (i == 0 || !IsJunk(s[i - 1]))
        && r == s[..i] + s[e..]
    ensures r == [] || IsJsonish(r[|r| - 1])
  {
    var e := DollarEnd(s);
    var i := e - RunBefore(s, e, IsJunk);
    assert i > 0 && i < e ==> !IsJunk(s[i - 1]);
    var r := s[..i] + s[e..];
    assert r == [] || IsJsonish(r[|r| - 1]) by {
      if e < |s| {
        assert r[|r| - 1] == s[e] == '\n';
      } else if i > 0 {
        assert r[|r| - 1] == s[i - 1];
      }
    }
    r
  }

  /** `removeTrailingIncompleteData`: the three trailing rewrites in order. */
  function RemoveTrailingIncompleteData(s: string): (r: string)
    ensures |r| <= |s|
    ensures r == [] || IsJsonish(r[|r| - 1])
  {
    CutTrailingJunk(CutTrailingComma(RTrimChars(s)))
  }

  // ---------------------------------------------------------------------
  // Step 3: closing brackets.
  // ---------------------------------------------------------------------

  /** How many more `[` than `]` the text holds, or 0; string literals are not skipped. */
  function Deficit(s: string): (d: nat)
    ensures Count(s, '[') <= Count(s, ']') + d
    ensures d == 0 || Count(s, '[') == Count(s, ']') + d
  {
    if Count(s, '[') > Count(s, ']') then Count(s, '[') - Count(s, ']') else 0
  }

  /** `ensureJsonIsClosed`: append the missing `]`, then one more if the text still does not end in one. */
  function EnsureClosed(s: string): (r: string)
  {
    var b := s + Repeat(']', Deficit(s));
    if EndsInBracket(b) then b else b + "]"
  }

  lemma EndsInBracketLast(s: string)
    requires s != [] && s[|s| - 1] == ']'
    ensures EndsInBracket(s)
  {
  }

  /**
   * Only closing brackets are appended: exactly the deficit when there is
   * one, otherwise at most one; afterwards the text ends in `]` and holds at
   * least as many `]` as `[`.
   */
  lemma EnsureClosedFacts(s: string)
    ensures
      var r := EnsureClosed(s);
      |s| <= |r| && r[..|s|] == s
      && (forall k :: |s| <= k < |r| ==> r[k] == ']')
      && (if Deficit(s) > 0 then |r| == |s| + Deficit(s) else |r| <= |s| + 1)
      && EndsInBracket(r)
      && Count(r, '[') == Count(s, '[') && Count(r, '[') <= Count(r, ']')
  {
    var d := Deficit(s);
    var b := s + Repeat(']', d);
    CountAppend(s, Repeat(']', d), '[');
    CountAppend(s, Repeat(']', d), ']');
    CountRepeat(']', '[', d);
    CountRepeat(']', ']', d);
    if d > 0 {
      EndsInBracketLast(b);
    } else if !EndsInBracket(b) {
      assert b == s;
      CountAppend(s, "]", '[');
      CountAppend(s, "]", ']');
      EndsInBracketLast(s + "]");
    }
  }

  /** A text that is already balanced and ends in `]` is left as it is. */
  lemma EnsureClosedIdentity(s: string)
    requires EndsInBracket(s) && Count(s, '[') <= Count(s, ']')
    ensures EnsureClosed(s) == s
  {
    assert Deficit(s) == 0;
    assert s + Repeat(']', 0) == s;
  }

  // ---------------------------------------------------------------------
  // The whole repair.
  // ---------------------------------------------------------------------

  function Repair(s: string): (r: string)
  {
    EnsureClosed(RemoveTrailingIncompleteData(StripClosingFence(StripOpeningFence(s))))
  }

  /**
   * `fixIncompleteJson`: the repaired text if the validity check (the JSON
   * decoder) accepts it, otherwise the invalid-format error.
   */
  function Fix(s: string, isValid: string -> bool): (r: Result<string>)
    ensures r.Ok? <==> isValid(Repair(s))
    ensures r.Ok? ==> (r.value == Repair(s) && EndsInBracket(r.value)
      && Count(r.value, '[') <= Count(r.value, ']'))
    ensures r.Err? ==> r.message == InvalidFormat
  {
    EnsureClosedFacts(RemoveTrailingIncompleteData(StripClosingFence(StripOpeningFence(s))));
    var t := Repair(s);
    if isValid(t) then Ok(t) else Err(InvalidFormat)
  }

  // ---------------------------------------------------------------------
  // Properties of the repair.
  // ---------------------------------------------------------------------

  lemma RemoveTrailingKeepsBracketEnd(v: string)
    requires v != [] && v[|v| - 1] == ']'
    ensures RemoveTrailingIncompleteData(v) == v
  {
    assert RTrimChars(v) == v;
    assert RunBefore(v, |v|, IsSpace) == 0;
    assert CutTrailingComma(v) == v;
    assert DollarEnd(v) == |v|;
    assert RunBefore(v, |v|, IsJunk) == 0;
    assert v[..|v|] + v[|v|..] == v;
  }

  /**
   * Identity: text that carries no fence, ends in `]` and is balanced is
   * returned unchanged when valid, and rejected otherwise.
   */
  lemma {:induction false} FixIdentity(v: string, isValid: string -> bool)
    requires v != [] && v[|v| - 1] == ']'
    requires !StartsWith(v, "```json")
    requires Count(v, '[') <= Count(v, ']')
    ensures Fix(v, isValid) == if isValid(v) then Ok(v) else Err(InvalidFormat)
  {
    assert !EndsWith(v, "```") && !EndsWith(v, "```\n");
    RemoveTrailingKeepsBracketEnd(v);
    EndsInBracketLast(v);
    EnsureClosedIdentity(v);
  }

  /**
   * A JSON array wrapped in a ```json fence (fence, newline, array,
   * newline, fence) comes back without the fence.
   */
  lemma {:induction false} FixFencedArray(v: string, isValid: string -> bool)
    requires v != [] && !IsSpace(v[0]) && v[|v| - 1] == ']'
    requires Count(v, '[') <= Count(v, ']')
    ensures Fix("```json\n" + v + "\n```", isValid)
      == if isValid(v) then Ok(v) else Err(InvalidFormat)
  {
    var s := "```json\n" + v + "\n```";
    var t := s[7..];
    assert t == "\n" + v + "\n```";
    assert RunFrom(t, IsSpace) == 1 by {
      assert t[1..] == v + "\n```";
    }
    var u := v + "\n```";
    assert StripOpeningFence(s) == u;
    ClosingFenceAfterNewline(v);
    RemoveTrailingKeepsBracketEnd(v);
    EndsInBracketLast(v);
    EnsureClosedIdentity(v);
  }

  /** A closing fence on its own line after text ending in a non-space goes, with the newline before it. */
  lemma ClosingFenceAfterNewline(w: string)
    requires w != [] && !IsSpace(w[|w| - 1])
    ensures StripClosingFence(w + "\n```") == w
  {
    var s := w + "\n```";
    assert EndsWith(s, "```") by {
      assert s[|s| - 3..] == "```";
    }
    assert DollarEnd(s) == |s|;
    assert RunBefore(s, |s| - 3, IsSpace) == 1 by {
      assert s[|s| - 4] == '\n';
      assert s[|s| - 5] == w[|w| - 1];
    }
    assert s[..|w|] == w;
  }

  /** A fence without the json tag is kept at the front: only the closing fence goes. */
  lemma UntaggedFenceKept(v: string)
    requires v != [] && !IsSpace(v[0]) && v[|v| - 1] == ']'
    ensures StripClosingFence(StripOpeningFence("```\n" + v + "\n```")) == "```\n" + v
  {
    var s := "```\n" + v + "\n```";
    assert !StartsWith(s, "```json") by {
      assert s[3] == '\n';
    }
    var w := "```\n" + v;
    assert s == w + "\n```";
    ClosingFenceAfterNewline(w);
  }

  /** When brackets are missing, exactly the missing ones are appended. */
  lemma EnsureClosedDeficit(s: string)
    requires Deficit(s) > 0
    ensures EnsureClosed(s) == s + Repeat(']', Deficit(s))
  {
    EndsInBracketLast(s + Repeat(']', Deficit(s)));
  }

  lemma FixUnfenced(s: string, isValid: string -> bool)
    requires !StartsWith(s, "```json") && !EndsWith(s, "```") && !EndsWith(s, "```\n")
    ensures Repair(s) == EnsureClosed(RemoveTrailingIncompleteData(s))
  {
  }

  /** A comma cut off after the last complete element makes no difference to the repair. */
  lemma FixDropsTrailingComma(a: string, isValid: string -> bool)
    requires a != [] && a[0] != '`'
    requires IsJsonish(a[|a| - 1]) && !IsSpace(a[|a| - 1]) && !IsRTrimmed(a[|a| - 1])
    ensures Fix(a + ",", isValid) == Fix(a, isValid)
  {
    UnfencedWithComma(a);
    FixUnfenced(a + ",", isValid);
    FixUnfenced(a, isValid);
    CommaTrimmed(a);
  }

  lemma UnfencedWithComma(a: string)
    requires a != [] && a[0] != '`' && a[|a| - 1] != '`' && a[|a| - 1] != '\n'
    ensures !StartsWith(a + ",", "```json") && !EndsWith(a + ",", "```") && !EndsWith(a + ",", "```\n")
    ensures !StartsWith(a, "```json") && !EndsWith(a, "```") && !EndsWith(a, "```\n")
  {
    var s := a + ",";
    assert s[0] == a[0] && s[|s| - 1] == ',';
  }

  lemma CommaTrimmed(a: string)
    requires a != [] && !IsRTrimmed(a[|a| - 1])
    ensures RemoveTrailingIncompleteData(a + ",") == RemoveTrailingIncompleteData(a)
  {
    var s := a + ",";
    assert s[..|s| - 1] == a;
    assert RTrimChars(s) == RTrimChars(a);
  }

  /**
   * Text that ends in `]` but lacks closing brackets gets exactly the
   * missing ones; bracket counting does not skip string literals.
   */
  lemma FixAppendsMissingBrackets(v: string, isValid: string -> bool)
    requires v != [] && v[0] != '`' && v[|v| - 1] == ']'
    requires Deficit(v) > 0
    ensures var closed := v + Repeat(']', Deficit(v));
      Fix(v, isValid) == if isValid(closed) then Ok(closed) else Err(InvalidFormat)
  {
    FixUnfenced(v, isValid);
    RemoveTrailingKeepsBracketEnd(v);
    EnsureClosedDeficit(v);
  }

  /** In `["a["]` the bracket inside the string literal counts: one `]` is missing. */
  lemma BracketInStringCounted(a: string)
    requires a == "[\"a[\"]"
    ensures Deficit(a) == 1
  {
    assert a == "[\"a" + "[\"" + "]";
    CountAppend("[\"a", "[\"", '[');
    CountAppend("[\"a" + "[\"", "]", '[');
    CountAppend("[\"a", "[\"", ']');
    CountAppend("[\"a" + "[\"", "]", ']');
  }
}
