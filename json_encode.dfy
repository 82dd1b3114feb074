/**
 * `json_encode` (default flags) for the values the publisher encodes — a
 * string, a list of strings, or null — and `stripslashes`, which together
 * make the de-duplication key of a published article.
 */
module JsonEncode {
  import opened Php

  /** A PHP article field that may be a string, a list of strings, or missing (null). */
  datatype Field = Absent | Str(s: string) | List(items: seq<string>)

  /** `empty($field)`: null, "", "0" and the empty array are empty. */
  predicate IsEmpty(f: Field)
  {
    match f
    case Absent => true
    case Str(s) => Falsy(s)
    case List(items) => items == []
  }

  /** A hexadecimal digit, lower case as PHP's encoder writes it. */
  function HexDigit(d: nat): (c: char)
    requires d < 16
    ensures c != '\\'
  {
    if d < 10 then DigitChar(d) else ('a' as int + d - 10) as char
  }

  function Hex4(n: nat): (h: string)
    requires n < 0x10000
    ensures |h| == 4 && '\\' !in h
  {
    [HexDigit(n / 4096), HexDigit(n / 256 % 16), HexDigit(n / 16 % 16), HexDigit(n % 16)]
  }

  /**
   * How `json_encode` writes one character inside a string: quote, backslash
   * and slash are escaped, control characters get a short or \u00XX form,
   * ASCII is kept, everything else becomes \uXXXX (a surrogate pair above
   * the basic plane).
   */
  function EscapeChar(c: char): (e: string)
    ensures |e| >= 1
  {
    if c == '"' then "\\\""
    else if c == '\\' then "\\\\"
    else if c == '/' then "\\/"
    else if c as int == 8 then "\\b"
    else if c as int == 12 then "\\f"
    else if c == '\n' then "\\n"
    else if c == '\r' then "\\r"
    else if c == '\t' then "\\t"
    else if c as int < 0x20 then "\\u" + Hex4(c as int)
    else if c as int < 0x80 then [c]
    else if c as int < 0x10000 then "\\u" + Hex4(c as int)
    else
      var v := c as int - 0x10000;
      "\\u" + Hex4(0xD800 + v / 0x400) + "\\u" + Hex4(0xDC00 + v % 0x400)
  }

  function Escaped(s: string): (e: string)
  {
    if s == [] then "" else EscapeChar(s[0]) + Escaped(s[1..])
  }

  /** `json_encode($s)` for a string. */
  function JsonString(s: string): (j: string)
    ensures |j| >= 2 && j[0] == '"' && j[|j| - 1] == '"'
  {
    "\"" + Escaped(s) + "\""
  }

  /** `json_encode($field)`: null, a JSON string, or a JSON array of strings. */
  function Encode(f: Field): (j: string)
    ensures j != []
  {
    match f
    case Absent => "null"
    case Str(s) => JsonString(s)
    case List(items) => "[" + Implode(",", Map(items, JsonString)) + "]"
  }

  /**
   * `stripslashes($s)`: every backslash is dropped and the character after it
   * kept, except that "\0" becomes a NUL character; a final lone backslash
   * disappears.
   */
  function StripSlashes(s: string): (r: string)
    decreases |s|
  {
    if s == [] then ""
    else if s[0] == '\\' then
      if |s| == 1 then "" else [if s[1] == '0' then '\0' else s[1]] + StripSlashes(s[2..])
    else [s[0]] + StripSlashes(s[1..])
  }

  /**
   * The value under which a link is recorded in `source_link` and looked up:
   * the lookup applies `stripslashes` to the JSON encoding, and WordPress
   * unslashes every meta value it stores, so both sides use this form.
   */
  function DedupKey(link: Field): (key: string)
  {
    StripSlashes(Encode(link))
  }

  // ---------------------------------------------------------------------
  // Facts about stripslashes on escaped text.
  // ---------------------------------------------------------------------

  /** Every backslash of `s` is followed by the character it escapes. */
  predicate Paired(s: string)
    decreases |s|
  {
    if s == [] then true
    else if s[0] == '\\' then |s| >= 2 && Paired(s[2..])
    else Paired(s[1..])
  }

  lemma {:induction false} PairedWithoutBackslash(s: string)
    requires '\\' !in s
    ensures Paired(s)
    decreases |s|
  {
    if s != [] {
      PairedWithoutBackslash(s[1..]);
    }
  }

  lemma {:induction false} PairedAppend(a: string, b: string)
    requires Paired(a) && Paired(b)
    ensures Paired(a + b)
    decreases |a|
  {
    if a == [] {
      assert a + b == b;
    } else if a[0] == '\\' {
      assert (a + b)[2..] == a[2..] + b;
      PairedAppend(a[2..], b);
    } else {
      assert (a + b)[1..] == a[1..] + b;
      PairedAppend(a[1..], b);
    }
  }

  lemma {:induction false} StripSlashesAppend(a: string, b: string)
    requires Paired(a)
    ensures StripSlashes(a + b) == StripSlashes(a) + StripSlashes(b)
    decreases |a|
  {
    if a == [] {
      assert a + b == b;
    } else if a[0] == '\\' {
      assert (a + b)[2..] == a[2..] + b;
      StripSlashesAppend(a[2..], b);
    } else {
      assert (a + b)[1..] == a[1..] + b;
      StripSlashesAppend(a[1..], b);
    }
  }

  lemma ShortEscapeFacts(x: char)
    requires x != '0'
    ensures Paired(['\\', x]) && StripSlashes(['\\', x]) == [x]
  {
    assert ['\\', x][2..] == "";
  }

  /** Text without backslashes is left alone by stripslashes. */
  lemma {:induction false} StripSlashesPlain(s: string)
    requires '\\' !in s
    ensures StripSlashes(s) == s
    decreases |s|
  {
    if s != [] {
      StripSlashesPlain(s[1..]);
    }
  }

  lemma EscapeUnicodePaired(h: string)
    requires '\\' !in h
    ensures Paired("\\u" + h)
    ensures StripSlashes("\\u" + h) == "u" + StripSlashes(h)
  {
    var e := "\\u" + h;
    assert e[2..] == h;
    PairedWithoutBackslash(h);
  }

  /** One escaped character is paired, and unslashing it leaves at least one character. */
  lemma EscapeCharFacts(c: char)
    ensures Paired(EscapeChar(c))
    ensures |StripSlashes(EscapeChar(c))| >= 1
    ensures StripSlashes(EscapeChar(c)) == "0" ==> c == '0'
  {
    var e := EscapeChar(c);
    if c == '"' || c == '\\' || c == '/' || c as int == 8 || c as int == 12
       || c == '\n' || c == '\r' || c == '\t' {
      assert |e| == 2 && e[0] == '\\' && e[1] != '0';
      ShortEscapeFacts(e[1]);
      assert e == ['\\', e[1]];
    } else if c as int < 0x20 || (0x80 <= c as int < 0x10000) {
      EscapeUnicodePaired(Hex4(c as int));
    } else if c as int < 0x80 {
      assert e == [c];
      PairedWithoutBackslash(e);
      StripSlashesPlain(e);
    } else {
      SurrogatePairFacts(Hex4(0xD800 + (c as int - 0x10000) / 0x400), Hex4(0xDC00 + (c as int - 0x10000) % 0x400));
    }
  }

  /** The two `\u` escapes of a character outside the basic plane, written one after the other. */
  lemma SurrogatePairFacts(h1: string, h2: string)
    requires |h1| == 4 && |h2| == 4 && '\\' !in h1 && '\\' !in h2
    ensures Paired("\\u" + h1 + "\\u" + h2)
    ensures |StripSlashes("\\u" + h1 + "\\u" + h2)| >= 1
    ensures StripSlashes("\\u" + h1 + "\\u" + h2) != "0"
  {
    EscapeUnicodePaired(h1);
    EscapeUnicodePaired(h2);
    assert "\\u" + h1 + "\\u" + h2 == ("\\u" + h1) + ("\\u" + h2);
    PairedAppend("\\u" + h1, "\\u" + h2);
    StripSlashesAppend("\\u" + h1, "\\u" + h2);
  }

  lemma {:induction false} EscapedPaired(s: string)
    ensures Paired(Escaped(s))
  {
    if s != [] {
      EscapeCharFacts(s[0]);
      EscapedPaired(s[1..]);
      PairedAppend(EscapeChar(s[0]), Escaped(s[1..]));
    }
  }

  /** Unslashing an escaped string leaves at least one character per original character. */
  lemma {:induction false} UnslashedEscapedLength(s: string)
    ensures |StripSlashes(Escaped(s))| >= |s|
    ensures StripSlashes(Escaped(s)) == "0" ==> s == "0"
  {
    if s != [] {
      EscapeCharFacts(s[0]);
      StripSlashesAppend(EscapeChar(s[0]), Escaped(s[1..]));
      UnslashedEscapedLength(s[1..]);
      if |s| == 1 {
        assert s[1..] == "";
        assert StripSlashes(Escaped(s)) == StripSlashes(EscapeChar(s[0]));
        assert s == [s[0]];
      }
    }
  }

  lemma StripSlashesKeepsFirst(s: string)
    requires s != [] && s[0] != '\\'
    ensures StripSlashes(s) == [s[0]] + StripSlashes(s[1..])
  {
  }

  /** The key of a string link is the unslashed escape of the string between quotes. */
  lemma DedupKeyOfString(s: string)
    ensures DedupKey(Str(s)) == "\"" + StripSlashes(Escaped(s)) + "\""
  {
    var e := Escaped(s);
    EscapedPaired(s);
    var j := "\"" + e + "\"";
    assert Encode(Str(s)) == j;
    assert j[1..] == e + "\"";
    StripSlashesKeepsFirst(j);
    StripSlashesAppend(e, "\"");
    assert StripSlashes("\"") == "\"";
  }

  /** The key of a non-empty list starts with `["`. */
  lemma DedupKeyOfList(items: seq<string>)
    requires items != []
    ensures |DedupKey(List(items))| >= 2
    ensures DedupKey(List(items))[0] == '[' && DedupKey(List(items))[1] == '"'
  {
    var parts := Map(items, JsonString);
    var joined := Implode(",", parts);
    assert joined != [] && joined[0] == '"' by {
      if |parts| > 1 {
        assert joined == parts[0] + "," + Implode(",", parts[1..]);
      }
    }
    var j := "[" + joined + "]";
    assert j[1..] == joined + "]";
    StripSlashesKeepsFirst(j);
    StripSlashesKeepsFirst(joined + "]");
  }

  lemma DedupKeyFirst(link: Field)
    ensures DedupKey(link) != []
    ensures link.Absent? ==> DedupKey(link) == "null"
    ensures link.Str? ==> DedupKey(link)[0] == '"'
    ensures link.List? ==> DedupKey(link)[0] == '['
  {
    match link
    case Absent =>
      StripSlashesPlain("null");
    case Str(s) =>
      DedupKeyOfString(s);
    case List(items) =>
      if items == [] {
        assert Encode(link) == "[]";
        StripSlashesPlain("[]");
      } else {
        DedupKeyOfList(items);
      }
  }

  lemma QuotedInjective(a: string, b: string)
    requires "\"" + a + "\"" == "\"" + b + "\""
    ensures a == b
  {
    assert a == ("\"" + a + "\"")[1..|a| + 1];
    assert b == ("\"" + b + "\"")[1..|b| + 1];
  }

  lemma FalsyUnslashedEscape(e: string)
    requires Falsy(e)
    ensures StripSlashes(Escaped(e)) == e
  {
    if e == "0" {
      assert Escaped(e) == EscapeChar('0') + Escaped("");
      StripSlashesPlain("0");
    }
  }

  lemma EmptyStringKeys(e: string, s: string)
    requires Falsy(e) && !Falsy(s)
    ensures DedupKey(Str(e)) != DedupKey(Str(s))
  {
    var x := StripSlashes(Escaped(s));
    var y := StripSlashes(Escaped(e));
    assert x != y by {
      FalsyUnslashedEscape(e);
      UnslashedEscapedLength(s);
    }
    DedupKeyOfString(e);
    DedupKeyOfString(s);
    if DedupKey(Str(e)) == DedupKey(Str(s)) {
      QuotedInjective(y, x);
    }
  }

  /**
   * A link PHP considers empty never shares its key with a non-empty link,
   * so an article without a link is never taken for an already published one.
   */
  lemma EmptyLinkKeyIsNeverStored(empty: Field, link: Field)
    requires IsEmpty(empty) && !IsEmpty(link)
    ensures DedupKey(empty) != DedupKey(link)
  {
    DedupKeyFirst(empty);
    DedupKeyFirst(link);
    if empty.Str? && link.Str? {
      EmptyStringKeys(empty.s, link.s);
    } else if empty.List? && link.List? {
      assert Encode(empty) == "[]";
      StripSlashesPlain("[]");
      DedupKeyOfList(link.items);
    }
  }

  /** A string link and the one-element list holding it are different keys. */
  lemma StringAndListKeysDiffer(s: string)
    ensures DedupKey(Str(s)) != DedupKey(List([s]))
  {
    DedupKeyFirst(Str(s));
    DedupKeyFirst(List([s]));
  }

  /**
   * The key is not injective: unslashing the JSON escape of a newline leaves
   * the letter n, so the links "\n" and "n" share a key.
   */
  lemma NewlineAndLetterShareKey()
    ensures DedupKey(Str("\n")) == DedupKey(Str("n"))
  {
    DedupKeyOfString("\n");
    DedupKeyOfString("n");
    assert Escaped("\n") == "\\n";
    assert Escaped("n") == "n";
    assert StripSlashes("\\n") == "n";
  }
}
