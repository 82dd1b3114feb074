/**
 * The parts of PHP's runtime behaviour that the plugin relies on: the
 * truthiness of strings, `trim`, `explode`/`implode`, integer casts and
 * `is_numeric`, and the line splitting the meta boxes apply to their
 * configured URL lists.
 */
module Php {

  datatype Option<+T> = None | Some(value: T)

  /** A thrown exception is modelled as an `Err` carrying its message. */
  datatype Result<+T> = Ok(value: T) | Err(message: string)

  /** `empty($s)` and `!$s` on a PHP string: both "" and "0" are false. */
  predicate Falsy(s: string)
  {
    s == "" || s == "0"
  }

  // ---------------------------------------------------------------------
  // Generic sequence helpers (array_map, array_filter, array_merge).
  // ---------------------------------------------------------------------

  function Map<T, U>(xs: seq<T>, f: T -> U): (ys: seq<U>)
    ensures |ys| == |xs|
    ensures forall i :: 0 <= i < |xs| ==> ys[i] == f(xs[i])
  {
    if xs == [] then [] else [f(xs[0])] + Map(xs[1..], f)
  }

  /** The elements of `xs` that satisfy `keep`, in their original order. */
  function Filter<T>(xs: seq<T>, keep: T -> bool): (ys: seq<T>)
    ensures |ys| <= |xs|
    ensures forall y :: y in ys ==> y in xs && keep(y)
  {
    if xs == [] then []
    else if keep(xs[0]) then [xs[0]] + Filter(xs[1..], keep)
    else Filter(xs[1..], keep)
  }

  /** Filtering loses exactly the elements that fail `keep`. */
  lemma {:induction false} FilterKeepsExactly<T>(xs: seq<T>, keep: T -> bool, x: T)
    ensures x in Filter(xs, keep) <==> x in xs && keep(x)
  {
    if xs != [] {
      FilterKeepsExactly(xs[1..], keep, x);
      assert xs == [xs[0]] + xs[1..];
    }
  }

  /** Filtering distributes over concatenation. */
  lemma {:induction false} FilterAppend<T>(xs: seq<T>, ys: seq<T>, keep: T -> bool)
    ensures Filter(xs + ys, keep) == Filter(xs, keep) + Filter(ys, keep)
  {
    if xs == [] {
      assert xs + ys == ys;
    } else {
      var zs := xs + ys;
      assert zs[0] == xs[0] && zs[1..] == xs[1..] + ys;
      FilterAppend(xs[1..], ys, keep);
      if keep(xs[0]) {
        calc {
          Filter(zs, keep);
          [xs[0]] + Filter(xs[1..] + ys, keep);
          [xs[0]] + (Filter(xs[1..], keep) + Filter(ys, keep));
          ([xs[0]] + Filter(xs[1..], keep)) + Filter(ys, keep);
        }
      }
    }
  }

  /** The concatenation of a sequence of sequences (repeated array_merge). */
  function Flatten<T>(xss: seq<seq<T>>): (ys: seq<T>)
  {
    if xss == [] then [] else xss[0] + Flatten(xss[1..])
  }

  lemma {:induction false} FlattenAppend<T>(xss: seq<seq<T>>, xs: seq<T>)
    ensures Flatten(xss + [xs]) == Flatten(xss) + xs
  {
    if xss == [] {
      assert [xs][1..] == [];
    } else {
      assert (xss + [xs])[1..] == xss[1..] + [xs];
      FlattenAppend(xss[1..], xs);
    }
  }

  lemma {:induction false} FlattenConcat<T>(xss: seq<seq<T>>, yss: seq<seq<T>>)
    ensures Flatten(xss + yss) == Flatten(xss) + Flatten(yss)
    decreases |xss|
  {
    if xss == [] {
      assert xss + yss == yss;
    } else {
      assert (xss + yss)[0] == xss[0];
      assert (xss + yss)[1..] == xss[1..] + yss;
      FlattenConcat(xss[1..], yss);
    }
  }

  lemma {:induction false} MapAppend<T, U>(xs: seq<T>, ys: seq<T>, f: T -> U)
    ensures Map(xs + ys, f) == Map(xs, f) + Map(ys, f)
    decreases |xs|
  {
    if xs == [] {
      assert xs + ys == ys;
    } else {
      assert (xs + ys)[0] == xs[0];
      assert (xs + ys)[1..] == xs[1..] + ys;
      MapAppend(xs[1..], ys, f);
      assert ([f(xs[0])] + Map(xs[1..], f)) + Map(ys, f) == [f(xs[0])] + (Map(xs[1..], f) + Map(ys, f));
    }
  }

  predicate StartsWith(s: string, prefix: string)
  {
    |prefix| <= |s| && s[..|prefix|] == prefix
  }

  predicate EndsWith(s: string, suffix: string)
  {
    |suffix| <= |s| && s[|s| - |suffix|..] == suffix
  }

  /** Number of occurrences of `c` in `s` (`substr_count` with a one-character needle). */
  function Count(s: string, c: char): (n: nat)
    ensures n <= |s|
    ensures n == 0 <==> c !in s
  {
    if s == [] then 0 else (if s[0] == c then 1 else 0) + Count(s[1..], c)
  }

  lemma {:induction false} CountAppend(s: string, t: string, c: char)
    ensures Count(s + t, c) == Count(s, c) + Count(t, c)
  {
    if s == [] {
      assert s + t == t;
    } else {
      assert (s + t)[1..] == s[1..] + t;
      CountAppend(s[1..], t, c);
    }
  }

  /** `str_repeat(c, n)` for a one-character string. */
  function Repeat(c: char, n: nat): (r: string)
    ensures |r| == n
    ensures forall i :: 0 <= i < n ==> r[i] == c
  {
    if n == 0 then "" else [c] + Repeat(c, n - 1)
  }

  lemma {:induction false} CountRepeat(c: char, d: char, n: nat)
    ensures Count(Repeat(c, n), d) == if c == d then n else 0
  {
    if n > 0 {
      CountRepeat(c, d, n - 1);
      assert Repeat(c, n)[1..] == Repeat(c, n - 1);
    }
  }

  // ---------------------------------------------------------------------
  // trim()
  // ---------------------------------------------------------------------

  /** The characters `trim` removes by default: " \t\n\r\0\x0B". */
  predicate IsTrimChar(c: char)
  {
    c == ' ' || c == '\t' || c == '\n' || c == '\r' || c == '\0' || c == '\U{B}'
  }

  function TrimStart(s: string): (r: string)
    ensures |r| <= |s| && r == s[|s| - |r|..]
    ensures r == [] || !IsTrimChar(r[0])
    ensures forall i :: 0 <= i < |s| - |r| ==> IsTrimChar(s[i])
    ensures forall c :: c in r ==> c in s
  {
    if s != [] && IsTrimChar(s[0]) then TrimStart(s[1..]) else s
  }

  function TrimEnd(s: string): (r: string)
    ensures |r| <= |s| && r == s[..|r|]
    ensures r == [] || !IsTrimChar(r[|r| - 1])
    ensures forall i :: |r| <= i < |s| ==> IsTrimChar(s[i])
    ensures forall c :: c in r ==> c in s
  {
    if s != [] && IsTrimChar(s[|s| - 1]) then TrimEnd(s[..|s| - 1]) else s
  }

  /** `trim($s)`: the result starts and ends with a character `trim` keeps. */
  function Trim(s: string): (r: string)
    ensures r == [] || (!IsTrimChar(r[0]) && !IsTrimChar(r[|r| - 1]))
    ensures |r| <= |s|
    ensures forall c :: c in r ==> c in s
  {
    TrimEnd(TrimStart(s))
  }

  lemma TrimIdempotent(s: string)
    ensures Trim(Trim(s)) == Trim(s)
  {
    var t := Trim(s);
    assert TrimStart(t) == t;
  }

  // ---------------------------------------------------------------------
  // explode() / implode()
  // ---------------------------------------------------------------------

  /** `explode($sep, $s)` for a one-character separator. */
  function Explode(sep: char, s: string): (parts: seq<string>)
    ensures |parts| >= 1
    ensures forall p :: p in parts ==> sep !in p
    decreases |s|
  {
    if s == [] then [""]
    else
      var rest := Explode(sep, s[1..]);
      if s[0] == sep then [""] + rest
      else [[s[0]] + rest[0]] + rest[1..]
  }

  /** `implode($glue, $parts)`. */
  function Implode(glue: string, parts: seq<string>): (s: string)
  {
    if parts == [] then ""
    else if |parts| == 1 then parts[0]
    else parts[0] + glue + Implode(glue, parts[1..])
  }

  /** Joining the pieces of an explode with the separator gives the string back. */
  lemma {:induction false} ImplodeExplode(sep: char, s: string)
    ensures Implode([sep], Explode(sep, s)) == s
    decreases |s|
  {
    if s != [] {
      var rest := Explode(sep, s[1..]);
      ImplodeExplode(sep, s[1..]);
      if s[0] == sep {
        assert ([""] + rest)[1..] == rest;
      } else if |rest| == 1 {
        assert Explode(sep, s) == [[s[0]] + rest[0]];
      } else {
        var parts := Explode(sep, s);
        assert parts[1..] == rest[1..];
        assert Implode([sep], rest) == rest[0] + [sep] + Implode([sep], rest[1..]);
      }
    }
  }

  lemma {:induction false} ExplodeNoSep(sep: char, p: string)
    requires sep !in p
    ensures Explode(sep, p) == [p]
    decreases |p|
  {
    if p != [] {
      ExplodeNoSep(sep, p[1..]);
      assert p[0] != sep;
      assert [p[0]] + p[1..] == p;
    }
  }

  lemma {:induction false} ExplodeAfterPiece(sep: char, p: string, t: string)
    requires sep !in p
    ensures Explode(sep, p + [sep] + t) == [p] + Explode(sep, t)
    decreases |p|
  {
    if p == [] {
      assert p + [sep] + t == [sep] + t;
      assert ([sep] + t)[1..] == t;
    } else {
      var s := p + [sep] + t;
      assert s[0] == p[0] && p[0] != sep;
      assert s[1..] == p[1..] + [sep] + t;
      ExplodeAfterPiece(sep, p[1..], t);
      assert Explode(sep, s[1..]) == [p[1..]] + Explode(sep, t);
      assert [p[0]] + p[1..] == p;
    }
  }

  /** Splitting a joined list of separator-free pieces gives the pieces back. */
  lemma {:induction false} ExplodeImplode(sep: char, parts: seq<string>)
    requires |parts| >= 1
    requires forall p :: p in parts ==> sep !in p
    ensures Explode(sep, Implode([sep], parts)) == parts
  {
    if |parts| == 1 {
      ExplodeNoSep(sep, parts[0]);
    } else {
      ExplodeImplode(sep, parts[1..]);
      ExplodeAfterPiece(sep, parts[0], Implode([sep], parts[1..]));
      assert parts == [parts[0]] + parts[1..];
    }
  }

  /** Joining the first `k` pieces gives a prefix of joining them all. */
  lemma {:induction false} ImplodePrefix(glue: string, parts: seq<string>, k: nat)
    requires k <= |parts|
    ensures StartsWith(Implode(glue, parts), Implode(glue, parts[..k]))
  {
    if k == 0 {
    } else if |parts| == 1 {
      assert parts[..k] == parts;
    } else if k == 1 {
      assert Implode(glue, parts[..1]) == parts[0];
    } else {
      ImplodePrefix(glue, parts[1..], k - 1);
      assert parts[..k][1..] == parts[1..][..k - 1];
      var head := parts[0] + glue;
      assert Implode(glue, parts[..k]) == head + Implode(glue, parts[1..][..k - 1]);
      assert Implode(glue, parts) == head + Implode(glue, parts[1..]);
    }
  }

  /** Joining `n` pieces free of the glue character with it puts exactly `n - 1` of it in. */
  lemma {:induction false} CountImplode(c: char, parts: seq<string>)
    requires |parts| >= 1 && forall p :: p in parts ==> c !in p
    ensures Count(Implode([c], parts), c) == |parts| - 1
  {
    if |parts| > 1 {
      CountImplode(c, parts[1..]);
      CountAppend(parts[0] + [c], Implode([c], parts[1..]), c);
      CountAppend(parts[0], [c], c);
      assert Count([c], c) == 1;
    }
  }

  // ---------------------------------------------------------------------
  // array_filter(array_map('trim', explode("\n", $text)))
  // ---------------------------------------------------------------------

  function TrimAll(pieces: seq<string>): (r: seq<string>)
    ensures |r| == |pieces|
    ensures forall i :: 0 <= i < |pieces| ==> r[i] == Trim(pieces[i])
  {
    Map(pieces, Trim)
  }

  /**
   * The entries of a newline-separated configuration field, as the meta
   * boxes compute them: every line trimmed, lines that PHP considers empty
   * ("" and "0") dropped, the rest kept in order.
   */
  function Lines(text: string): (lines: seq<string>)
  {
    Filter(TrimAll(Explode('\n', text)), IsEntry)
  }

  /** `array_filter` keeps the entries PHP considers non-empty. */
  predicate IsEntry(l: string)
  {
    !Falsy(l)
  }

  /** A trimmed piece is exactly the trim of some piece. */
  lemma TrimAllContains(pieces: seq<string>, l: string)
    ensures l in TrimAll(pieces) <==> exists p :: p in pieces && Trim(p) == l
  {
    var trimmed := TrimAll(pieces);
    if l in trimmed {
      var i :| 0 <= i < |trimmed| && trimmed[i] == l;
      assert pieces[i] in pieces && Trim(pieces[i]) == l;
    }
    if exists p :: p in pieces && Trim(p) == l {
      var p :| p in pieces && Trim(p) == l;
      var i :| 0 <= i < |pieces| && pieces[i] == p;
      assert trimmed[i] == l;
    }
  }

  /** An entry is kept exactly when it is a non-empty trimmed line of the text. */
  lemma LinesExactly(text: string, l: string)
    ensures l in Lines(text) <==>
              !Falsy(l) && exists p :: p in Explode('\n', text) && Trim(p) == l
  {
    var pieces := Explode('\n', text);
    FilterKeepsExactly(TrimAll(pieces), IsEntry, l);
    TrimAllContains(pieces, l);
  }

  /** Every entry is non-empty, has no surrounding blanks and no newline. */
  lemma LinesAreClean(text: string, l: string)
    requires l in Lines(text)
    ensures !Falsy(l) && Trim(l) == l && '\n' !in l
  {
    LinesExactly(text, l);
    var p :| p in Explode('\n', text) && Trim(p) == l;
    TrimIdempotent(p);
  }

  // ---------------------------------------------------------------------
  // Integer casts and is_numeric()
  // ---------------------------------------------------------------------

  /** The whitespace PHP skips before a numeric string: " \t\n\r\v\f". */
  predicate IsNumericSpace(c: char)
  {
    c == ' ' || c == '\t' || c == '\n' || c == '\r' || c == '\U{B}' || c == '\U{C}'
  }

  predicate IsDigit(c: char)
  {
    '0' <= c <= '9'
  }

  function SkipSpace(s: string): (r: string)
    ensures |r| <= |s| && r == s[|s| - |r|..]
    ensures r == [] || !IsNumericSpace(r[0])
  {
    if s != [] && IsNumericSpace(s[0]) then SkipSpace(s[1..]) else s
  }

  /** The longest prefix of `s` made of decimal digits. */
  function LeadingDigits(s: string): (r: string)
    ensures |r| <= |s| && r == s[..|r|]
    ensures forall i :: 0 <= i < |r| ==> IsDigit(r[i])
    ensures |r| < |s| ==> !IsDigit(s[|r|])
  {
    if s != [] && IsDigit(s[0]) then [s[0]] + LeadingDigits(s[1..]) else ""
  }

  /** The value of a string of decimal digits. */
  function DigitsValue(ds: string): (n: nat)
    requires forall i :: 0 <= i < |ds| ==> IsDigit(ds[i])
  {
    if ds == [] then 0
    else
      var last := ds[|ds| - 1];
      assert IsDigit(last);
      DigitsValue(ds[..|ds| - 1]) * 10 + (last as int - '0' as int)
  }

  /**
   * `(int)$s` / `intval($s)` on a decimal string: leading blanks, an
   * optional sign and the digits that follow; anything else gives 0.
   */
  function IntCast(s: string): int
  {
    var t := SkipSpace(s);
    if t != [] && t[0] == '-' then 0 - DigitsValue(LeadingDigits(t[1..])) as int
    else if t != [] && t[0] == '+' then DigitsValue(LeadingDigits(t[1..]))
    else DigitsValue(LeadingDigits(t))
  }

  function DigitChar(d: nat): (c: char)
    requires d < 10
    ensures IsDigit(c) && c as int - '0' as int == d
  {
    (d + '0' as int) as char
  }

  /** The decimal representation of a natural number, without leading zeros. */
  function NatToString(n: nat): (s: string)
    ensures |s| >= 1
    ensures forall i :: 0 <= i < |s| ==> IsDigit(s[i])
  {
    if n < 10 then [DigitChar(n)] else NatToString(n / 10) + [DigitChar(n % 10)]
  }

  /** PHP's string conversion of an int (used in messages). */
  function IntToString(n: int): (s: string)
    ensures forall i :: 0 <= i < |s| ==> IsDigit(s[i]) || s[i] == '-'
  {
    if n < 0 then "-" + NatToString(-n) else NatToString(n)
  }

  lemma {:induction false} NatToStringValue(n: nat)
    ensures DigitsValue(NatToString(n)) == n
  {
    if n >= 10 {
      NatToStringValue(n / 10);
      var s := NatToString(n);
      assert s[..|s| - 1] == NatToString(n / 10);
    }
  }

  lemma LeadingDigitsAll(s: string)
    requires forall i :: 0 <= i < |s| ==> IsDigit(s[i])
    ensures LeadingDigits(s) == s
  {
  }

  /** A string that starts with a digit or a sign is not skipped over by the leading-space scan. */
  lemma SkipSpaceNone(s: string)
    requires s != [] && (IsDigit(s[0]) || s[0] == '-')
    ensures SkipSpace(s) == s
  {
  }

  /** Reading back the digits of a natural number gives the number. */
  lemma IntCastNatToString(m: nat)
    ensures IntCast(NatToString(m)) == m
  {
    var d := NatToString(m);
    NatToStringValue(m);
    LeadingDigitsAll(d);
    assert IsDigit(d[0]);
    SkipSpaceNone(d);
  }

  /** Reading back the string form of an integer gives the integer. */
  lemma IntCastIntToString(n: int)
    ensures IntCast(IntToString(n)) == n
  {
    if n < 0 {
      IntCastNegative(-n);
    } else {
      IntCastNatToString(n);
    }
  }

  /** Reading back a minus sign followed by the digits of `m` gives `-m`. */
  lemma IntCastNegative(m: nat)
    ensures IntCast("-" + NatToString(m)) == 0 - m
  {
    var d := NatToString(m);
    NatToStringValue(m);
    LeadingDigitsAll(d);
    var s := "-" + d;
    SkipSpaceNone(s);
    assert s[1..] == d;
  }

  function SkipDigits(s: string): (r: string)
    ensures |r| <= |s| && r == s[|s| - |r|..]
  {
    s[|LeadingDigits(s)|..]
  }

  /** Digits with an optional decimal point: "12", "1.5", "3.", ".5". */
  predicate IsDecimalNumber(t: string)
  {
    var intPart := LeadingDigits(t);
    var rest := t[|intPart|..];
    if rest == [] then |intPart| > 0
    else rest[0] == '.' && (|intPart| > 0 || |LeadingDigits(rest[1..])| > 0)
         && |LeadingDigits(rest[1..])| == |rest| - 1
  }

  /**
   * `is_numeric($s)` for strings without an exponent: optional surrounding
   * whitespace, an optional sign, then a decimal number.
   */
  predicate IsNumeric(s: string)
  {
    var t := SkipSpace(s);
    var body := TrimNumericSpaceEnd(if t != [] && (t[0] == '+' || t[0] == '-') then t[1..] else t);
    IsDecimalNumber(body)
  }

  function TrimNumericSpaceEnd(s: string): (r: string)
    ensures |r| <= |s| && r == s[..|r|]
  {
    if s != [] && IsNumericSpace(s[|s| - 1]) then TrimNumericSpaceEnd(s[..|s| - 1]) else s
  }

  /** `ucfirst($s)`: an ASCII lower-case first letter becomes upper case. */
  function UpperFirst(s: string): (r: string)
    ensures |r| == |s| && (s != [] ==> r[1..] == s[1..])
    ensures s != [] && 'a' <= s[0] <= 'z' ==> 'A' <= r[0] <= 'Z' && r[0] as int + 32 == s[0] as int
    ensures s == [] || !('a' <= s[0] <= 'z') ==> r == s
  {
    if s != [] && 'a' <= s[0] <= 'z' then [(s[0] as int - 32) as char] + s[1..] else s
  }

  // ---------------------------------------------------------------------
  // serialize() and unserialize() of arrays, as WordPress stores array meta
  // ---------------------------------------------------------------------

  /** `serialize` of a list of integers: `a:N:{i:0;i:V0;i:1;i:V1;...}`. */
  function SerializeInts(xs: seq<int>): string
  {
    "a:" + IntToString(|xs|) + ":{" + IntEntries(xs, 0) + "}"
  }

  /** The entries of a serialized integer list, numbered from `k`. */
  function IntEntries(xs: seq<int>, k: nat): string
  {
    if xs == [] then "" else IntEntry(k, xs[0]) + IntEntries(xs[1..], k + 1)
  }

  /** One entry `i:K;i:V;` of a serialized integer list. */
  function IntEntry(k: nat, x: int): string
  {
    "i:" + IntToString(k) + ";i:" + IntToString(x) + ";"
  }

  /**
   * `serialize` of a list of strings: `a:N:{i:0;s:L0:"S0";...}`, where the
   * length counts characters (the byte length for ASCII text).
   */
  function SerializeStrings(xs: seq<string>): string
  {
    "a:" + IntToString(|xs|) + ":{" + StringEntries(xs, 0) + "}"
  }

  function StringEntries(xs: seq<string>, k: nat): string
  {
    if xs == [] then ""
    else "i:" + IntToString(k) + ";s:" + IntToString(|xs[0]|) + ":\"" + xs[0] + "\";" + StringEntries(xs[1..], k + 1)
  }

  /** The longest prefix of `s` without `c`. */
  function TakeUntil(s: string, c: char): (t: string)
    ensures |t| <= |s| && t == s[..|t|] && c !in t
    ensures |t| < |s| ==> s[|t|] == c
  {
    if s == [] || s[0] == c then "" else [s[0]] + TakeUntil(s[1..], c)
  }

  lemma {:induction false} TakeUntilPrefix(a: string, c: char, b: string)
    requires c !in a
    ensures TakeUntil(a + [c] + b, c) == a
  {
    if a != [] {
      assert (a + [c] + b)[1..] == a[1..] + [c] + b;
      TakeUntilPrefix(a[1..], c, b);
    }
  }

  /** The text before the next `stop`, and the text after that `stop`. */
  function ReadToken(s: string, stop: char): (r: Option<(string, string)>)
    ensures r.Some? ==> |r.value.1| < |s| && stop !in r.value.0
  {
    var t := TakeUntil(s, stop);
    if |t| == |s| then None else Some((t, s[|t| + 1..]))
  }

  lemma ReadTokenOf(d: string, stop: char, rest: string)
    requires stop !in d
    ensures ReadToken(d + [stop] + rest, stop) == Some((d, rest))
  {
    TakeUntilPrefix(d, stop, rest);
    assert (d + [stop] + rest)[|d| + 1..] == rest;
  }

  /** The integer written before the next `stop`, and the text after that `stop`. */
  function ReadInt(s: string, stop: char): (r: Option<(int, string)>)
    ensures r.Some? ==> |r.value.1| < |s|
  {
    match ReadToken(s, stop)
    case None => None
    case Some(token) => Some((IntCast(token.0), token.1))
  }

  lemma ReadIntOf(x: int, stop: char, rest: string)
    requires !IsDigit(stop) && stop != '-'
    ensures ReadInt(IntToString(x) + [stop] + rest, stop) == Some((x, rest))
  {
    ReadTokenOf(IntToString(x), stop, rest);
    IntCastIntToString(x);
  }

  /** One entry `i:K;i:V;` of a serialized array: the digits of its value, and the text after it. */
  function ParseIntEntry(s: string): Option<(string, string)>
  {
    if !StartsWith(s, "i:") then None
    else
      match ReadToken(s[2..], ';')
      case None => None
      case Some(key) =>
        if !StartsWith(key.1, "i:") then None else ReadToken(key.1[2..], ';')
  }

  /** `n` entries of a serialized array: the digits of their values in order, and the text after them. */
  function ParseIntEntries(s: string, n: nat): Option<(seq<string>, string)>
    decreases n
  {
    if n == 0 then Some(([], s))
    else
      match ParseIntEntry(s)
      case None => None
      case Some(value) =>
        match ParseIntEntries(value.1, n - 1)
        case None => None
        case Some(more) => Some(([value.0] + more.0, more.1))
  }

  /**
   * `maybe_unserialize` of a serialized array of integers: its values in
   * order; None for any other text.
   */
  function UnserializeInts(v: string): Option<seq<int>>
  {
    if !StartsWith(v, "a:") then None
    else
      match ReadInt(v[2..], ':')
      case None => None
      case Some(count) =>
        if count.0 < 0 || !StartsWith(count.1, "{") then None
        else
          match ParseIntEntries(count.1[1..], count.0)
          case None => None
          case Some(entries) => if entries.1 == "}" then Some(Map(entries.0, IntCast)) else None
  }

  lemma ParseIntEntryOf(k: nat, x: int, tail: string)
    ensures ParseIntEntry(IntEntry(k, x) + tail) == Some((IntToString(x), tail))
  {
    var dk, dx := IntToString(k), IntToString(x);
    var after := "i:" + (dx + [';'] + tail);
    var s := "i:" + (dk + [';'] + after);
    assert IntEntry(k, x) + tail == s;
    assert s[..2] == "i:" && s[2..] == dk + [';'] + after;
    assert ';' !in dk && ';' !in dx;
    ReadTokenOf(dk, ';', after);
    assert after[..2] == "i:" && after[2..] == dx + [';'] + tail;
    ReadTokenOf(dx, ';', tail);
  }

  lemma IntEntriesCons(xs: seq<int>, k: nat, rest: string)
    requires xs != []
    ensures IntEntries(xs, k) + rest == IntEntry(k, xs[0]) + (IntEntries(xs[1..], k + 1) + rest)
  {
    assert IntEntries(xs, k) == IntEntry(k, xs[0]) + IntEntries(xs[1..], k + 1);
  }

  lemma {:induction false} ParseIntEntriesOf(xs: seq<int>, k: nat, rest: string)
    ensures ParseIntEntries(IntEntries(xs, k) + rest, |xs|) == Some((Map(xs, IntToString), rest))
    decreases |xs|
  {
    if xs == [] {
      assert IntEntries(xs, k) + rest == rest;
    } else {
      var tail := IntEntries(xs[1..], k + 1) + rest;
      IntEntriesCons(xs, k, rest);
      ParseIntEntryOf(k, xs[0], tail);
      ParseIntEntriesOf(xs[1..], k + 1, rest);
    }
  }

  /** `(int)` reads back the string form of every integer of a list. */
  lemma CastDigitsBack(xs: seq<int>)
    ensures Map(Map(xs, IntToString), IntCast) == xs
  {
    var back := Map(Map(xs, IntToString), IntCast);
    forall i | 0 <= i < |xs|
      ensures back[i] == xs[i]
    {
      IntCastIntToString(xs[i]);
    }
  }

  lemma HeaderSplits(n: nat, body: string)
    ensures var v := "a:" + IntToString(n) + ":{" + body;
      StartsWith(v, "a:") && v[2..] == IntToString(n) + [':'] + ("{" + body)
  {
    var v := "a:" + IntToString(n) + ":{" + body;
    assert v == "a:" + (IntToString(n) + [':'] + ("{" + body));
  }

  lemma BraceSplits(body: string)
    ensures StartsWith("{" + body, "{") && ("{" + body)[1..] == body
  {
    assert ("{" + body)[..1] == "{";
  }

  /** The header `a:N:{` is read, then `N` entries, then the closing brace. */
  lemma UnserializeOf(n: nat, body: string, digits: seq<string>)
    requires ParseIntEntries(body, n) == Some((digits, "}"))
    ensures UnserializeInts("a:" + IntToString(n) + ":{" + body) == Some(Map(digits, IntCast))
  {
    HeaderSplits(n, body);
    ReadIntOf(n, ':', "{" + body);
    BraceSplits(body);
  }

  /** What `serialize` writes for a list of integers, `unserialize` reads back. */
  lemma UnserializeSerializeInts(xs: seq<int>)
    ensures UnserializeInts(SerializeInts(xs)) == Some(xs)
  {
    ParseIntEntriesOf(xs, 0, "}");
    UnserializeOf(|xs|, IntEntries(xs, 0) + "}", Map(xs, IntToString));
    assert SerializeInts(xs) == "a:" + IntToString(|xs|) + ":{" + (IntEntries(xs, 0) + "}");
    CastDigitsBack(xs);
  }
}
