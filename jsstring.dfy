/** The optional value used throughout the model (JavaScript's `undefined`/`null` or `false` results). */
module Wrappers {
  datatype Option<+T> = None | Some(value: T)
}

/**
 * The JavaScript built-ins on strings and numbers that the modelled code relies on:
 * `split` with a one-character or literal separator, `join`, the `trim().split(/\s+/)`
 * idiom, literal regular expressions (anchored or not) as prefix and substring tests,
 * `x | 0` and the decimal text of a number.
 */
module JsString {
  import opened Wrappers

  lemma AppendAssoc<T>(a: seq<T>, b: seq<T>, c: seq<T>)
    ensures (a + b) + c == a + (b + c)
  {
  }

  // ---------------------------------------------------------------------------
  // split and join on one character

  /** `s.split(sep)` for a one-character separator: always at least one piece. */
  function Split(s: string, sep: char): (parts: seq<string>)
    ensures |parts| >= 1
    ensures forall i :: 0 <= i < |parts| ==> sep !in parts[i]
    decreases |s|
  {
    if s == [] then [""]
    else
      var rest := Split(s[1..], sep);
      if s[0] == sep then [""] + rest
      else [[s[0]] + rest[0]] + rest[1..]
  }

  /** `parts.join(sep)`. */
  function Join(parts: seq<string>, sep: char): string
  {
    if parts == [] then ""
    else if |parts| == 1 then parts[0]
    else parts[0] + [sep] + Join(parts[1..], sep)
  }

  lemma JoinFirst(c: char, parts: seq<string>, sep: char)
    requires |parts| >= 1
    ensures Join([[c] + parts[0]] + parts[1..], sep) == [c] + Join(parts, sep)
  {
    var q := [[c] + parts[0]] + parts[1..];
    assert q[1..] == parts[1..];
  }

  /** Joining the pieces of a split gives the original text back. */
  lemma {:induction false} JoinSplit(s: string, sep: char)
    ensures Join(Split(s, sep), sep) == s
    decreases |s|
  {
    if s != [] {
      JoinSplit(s[1..], sep);
      var rest := Split(s[1..], sep);
      if s[0] == sep {
        assert ([""] + rest)[1..] == rest;
        assert s == [sep] + s[1..];
      } else {
        JoinFirst(s[0], rest, sep);
        assert s == [s[0]] + s[1..];
      }
    }
  }

  lemma {:induction false} SplitNoSep(p: string, sep: char)
    requires sep !in p
    ensures Split(p, sep) == [p]
    decreases |p|
  {
    if p != [] {
      SplitNoSep(p[1..], sep);
      assert [p[0]] + p[1..] == p;
    }
  }

  lemma {:induction false} SplitAfterSep(p: string, t: string, sep: char)
    requires sep !in p
    ensures Split(p + [sep] + t, sep) == [p] + Split(t, sep)
    decreases |p|
  {
    if p == [] {
      assert p + [sep] + t == [sep] + t;
      assert ([sep] + t)[1..] == t;
    } else {
      var s := p + [sep] + t;
      assert s[1..] == p[1..] + [sep] + t;
      SplitAfterSep(p[1..], t, sep);
      assert [p[0]] + p[1..] == p;
    }
  }

  /** Splitting a join of separator-free pieces gives the pieces back. */
  lemma {:induction false} SplitJoin(parts: seq<string>, sep: char)
    requires |parts| >= 1
    requires forall i :: 0 <= i < |parts| ==> sep !in parts[i]
    ensures Split(Join(parts, sep), sep) == parts
    decreases |parts|
  {
    if |parts| == 1 {
      SplitNoSep(parts[0], sep);
    } else {
      SplitJoin(parts[1..], sep);
      SplitAfterSep(parts[0], Join(parts[1..], sep), sep);
      assert [parts[0]] + parts[1..] == parts;
    }
  }

  // ---------------------------------------------------------------------------
  // literal patterns

  /** `p` occurs in `s` starting at index `i`. */
  predicate OccursAt(s: string, p: string, i: nat)
  {
    i + |p| <= |s| && s[i..i + |p|] == p
  }

  /** `s.startsWith(p)`, i.e. the anchored literal regular expression `/^p/`. */
  predicate StartsWith(s: string, p: string)
  {
    OccursAt(s, p, 0)
  }

  /** `s.indexOf(p, from)`: the first occurrence of `p` at or after `from`. */
  function IndexOf(s: string, p: string, from: nat := 0): (r: Option<nat>)
    ensures r.Some? ==> from <= r.value && OccursAt(s, p, r.value)
    ensures r.Some? ==> forall j :: from <= j < r.value ==> !OccursAt(s, p, j)
    ensures r.None? ==> forall j :: from <= j ==> !OccursAt(s, p, j)
    decreases |s| - from
  {
    if from + |p| > |s| then None
    else if OccursAt(s, p, from) then Some(from)
    else IndexOf(s, p, from + 1)
  }

  /** `s.includes(p)`, i.e. the unanchored literal regular expression `/p/`. */
  predicate Contains(s: string, p: string)
  {
    IndexOf(s, p).Some?
  }

  lemma ContainsIff(s: string, p: string)
    ensures Contains(s, p) <==> exists i: nat :: OccursAt(s, p, i)
  {
    if !Contains(s, p) {
      assert forall j: nat :: !OccursAt(s, p, j);
    }
  }

  /** `s.split(sep)` for a literal, non-empty separator string. */
  function SplitOn(s: string, sep: string): (parts: seq<string>)
    requires |sep| > 0
    ensures |parts| >= 1
    decreases |s|
  {
    match IndexOf(s, sep)
    case None => [s]
    case Some(i) => [s[..i]] + SplitOn(s[i + |sep|..], sep)
  }

  /** `parts.join(sep)` for a separator string. */
  function JoinOn(parts: seq<string>, sep: string): string
  {
    if parts == [] then ""
    else if |parts| == 1 then parts[0]
    else parts[0] + sep + JoinOn(parts[1..], sep)
  }

  /** Joining the pieces of a split on a literal separator gives the original text back. */
  lemma {:induction false} JoinSplitOn(s: string, sep: string)
    requires |sep| > 0
    ensures JoinOn(SplitOn(s, sep), sep) == s
    decreases |s|
  {
    match IndexOf(s, sep)
    case None =>
      assert SplitOn(s, sep) == [s];
    case Some(i) =>
      var t := s[i + |sep|..];
      var rest := SplitOn(t, sep);
      assert SplitOn(s, sep) == [s[..i]] + rest;
      JoinSplitOn(t, sep);
      assert JoinOn([s[..i]] + rest, sep) == s[..i] + sep + JoinOn(rest, sep) by {
        assert ([s[..i]] + rest)[1..] == rest;
      }
      assert s == s[..i] + sep + t by {
        assert s[i..i + |sep|] == sep;
        assert s == s[..i] + s[i..];
        assert s[i..] == s[i..i + |sep|] + t;
        AppendAssoc(s[..i], sep, t);
      }
  }

  // ---------------------------------------------------------------------------
  // white space

  /** The characters of the regular-expression class `\s` (equally, those `trim` removes). */
  predicate IsSpace(c: char)
  {
    c == ' ' || c == '\t' || c == '\n' || c == '\r' || c == '\U{000B}' || c == '\U{000C}'
    || c == '\U{00A0}' || c == '\U{1680}' || ('\U{2000}' <= c <= '\U{200A}')
    || c == '\U{2028}' || c == '\U{2029}' || c == '\U{202F}' || c == '\U{205F}'
    || c == '\U{3000}' || c == '\U{FEFF}'
  }

  /** The line terminators, which `.` in a regular expression does not match. */
  predicate IsLineTerminator(c: char)
  {
    c == '\n' || c == '\r' || c == '\U{2028}' || c == '\U{2029}'
  }

  predicate NoSpace(w: string)
  {
    forall k :: 0 <= k < |w| ==> !IsSpace(w[k])
  }

  /** Length of the run of non-space characters at the start of `s`. */
  function WordLength(s: string): (n: nat)
    ensures n <= |s|
    ensures NoSpace(s[..n])
    ensures n < |s| ==> IsSpace(s[n])
    decreases |s|
  {
    if s == [] || IsSpace(s[0]) then 0 else 1 + WordLength(s[1..])
  }

  /** The maximal runs of non-space characters of `s`, in order. */
  function Words(s: string): (ws: seq<string>)
    ensures forall i :: 0 <= i < |ws| ==> |ws[i]| > 0 && NoSpace(ws[i])
    decreases |s|
  {
    if s == [] then []
    else if IsSpace(s[0]) then Words(s[1..])
    else
      var n := WordLength(s);
      [s[..n]] + Words(s[n..])
  }

  /** `s.trim().split(/\s+/)`: the words of `s`, or the single empty string when it has none. */
  function SplitWords(s: string): (ws: seq<string>)
    ensures |ws| >= 1
    ensures ws == [""] || forall i :: 0 <= i < |ws| ==> |ws[i]| > 0 && NoSpace(ws[i])
  {
    var w := Words(s);
    if w == [] then [""] else w
  }

  /** The word at the start of `a` ends where it did once text starting with white space follows. */
  lemma WordLengthAppend(a: string, x: string)
    requires WordLength(a) < |a| || (x != [] && IsSpace(x[0]))
    ensures WordLength(a + x) == WordLength(a)
  {
    var n := WordLength(a);
    var m := WordLength(a + x);
    assert (a + x)[..n] == a[..n];
    assert n < |a + x| && IsSpace((a + x)[n]);
  }

  /** White space separates words: the words of `a`, a space and `b` are those of `a`, then those of `b`. */
  lemma {:induction false} WordsAround(a: string, c: char, b: string)
    requires IsSpace(c)
    ensures Words(a + [c] + b) == Words(a) + Words(b)
    decreases |a|
  {
    var s := a + [c] + b;
    if a == [] {
      assert s == [c] + b && s[1..] == b;
      assert Words(s) == Words(b);
    } else if IsSpace(a[0]) {
      assert s[1..] == a[1..] + [c] + b;
      WordsAround(a[1..], c, b);
      assert Words(s) == Words(s[1..]);
      assert Words(a) == Words(a[1..]);
    } else {
      WordsAroundWord(a, c, b);
    }
  }

  lemma {:induction false} WordsAroundWord(a: string, c: char, b: string)
    requires IsSpace(c) && a != [] && !IsSpace(a[0])
    ensures Words(a + [c] + b) == Words(a) + Words(b)
    decreases |a|, 0
  {
    var s := a + [c] + b;
    var n := WordLength(a);
    WordLengthAppend(a, [c] + b);
    assert s == a + ([c] + b);
    assert WordLength(s) == n;
    assert s[..n] == a[..n];
    assert Words(s) == [a[..n]] + Words(s[n..]);
    assert Words(a) == [a[..n]] + Words(a[n..]);
    if n < |a| {
      assert s[n..] == a[n..] + [c] + b;
      WordsAround(a[n..], c, b);
    } else {
      assert s[n..] == [c] + b && ([c] + b)[1..] == b;
      assert Words(s[n..]) == Words(b);
      assert a[n..] == [];
    }
  }

  /** A single word has itself as its only word. */
  lemma WordsOfWord(w: string)
    requires |w| > 0 && NoSpace(w)
    ensures Words(w) == [w]
  {
    var n := WordLength(w);
    assert n == |w|;
    assert w[..n] == w && w[n..] == [];
  }

  /** Words that are joined with single spaces are split back into the same words. */
  lemma {:induction false} WordsJoin(ws: seq<string>)
    requires forall i :: 0 <= i < |ws| ==> |ws[i]| > 0 && NoSpace(ws[i])
    ensures Words(Join(ws, ' ')) == ws
    decreases |ws|
  {
    if |ws| == 1 {
      WordsOfWord(ws[0]);
    } else if |ws| > 1 {
      WordsJoin(ws[1..]);
      WordsAround(ws[0], ' ', Join(ws[1..], ' '));
      WordsOfWord(ws[0]);
      assert [ws[0]] + ws[1..] == ws;
    }
  }

  /** `trim().split(/\s+/)` of words joined with single spaces gives the words back. */
  lemma SplitWordsJoin(ws: seq<string>)
    requires |ws| >= 1
    requires forall i :: 0 <= i < |ws| ==> |ws[i]| > 0 && NoSpace(ws[i])
    ensures SplitWords(Join(ws, ' ')) == ws
  {
    WordsJoin(ws);
  }

  /** Every character of `s` outside `s[i..j]` is white space. */
  predicate SpaceOutside(s: string, i: nat, j: nat)
  {
    forall k :: 0 <= k < |s| && (k < i || j <= k) ==> IsSpace(s[k])
  }

  /** `s.trim()`: the middle of `s` that neither starts nor ends with white space, with only white space around it. */
  function Trim(s: string): (t: string)
    ensures |t| <= |s|
    ensures t == [] || (!IsSpace(t[0]) && !IsSpace(t[|t| - 1]))
    ensures exists i: nat, j: nat :: i <= j <= |s| && t == s[i..j] && SpaceOutside(s, i, j)
    decreases |s|
  {
    if s == [] then
      assert s == s[0..0] && SpaceOutside(s, 0, 0);
      s
    else if IsSpace(s[0]) then
      var t := Trim(s[1..]);
      TrimWindowFront(s, t);
      t
    else if IsSpace(s[|s| - 1]) then
      var t := Trim(s[..|s| - 1]);
      TrimWindowBack(s, t);
      t
    else
      assert s == s[0..|s|] && SpaceOutside(s, 0, |s|);
      s
  }

  lemma TrimWindowFront(s: string, t: string)
    requires s != [] && IsSpace(s[0])
    requires exists i: nat, j: nat :: i <= j <= |s[1..]| && t == s[1..][i..j] && SpaceOutside(s[1..], i, j)
    ensures exists i: nat, j: nat :: i <= j <= |s| && t == s[i..j] && SpaceOutside(s, i, j)
  {
    var p := s[1..];
    var i: nat, j: nat :| i <= j <= |p| && t == p[i..j] && SpaceOutside(p, i, j);
    assert forall k :: 0 <= k < |p| ==> p[k] == s[k + 1];
    assert p[i..j] == s[i + 1..j + 1];
    assert SpaceOutside(s, i + 1, j + 1);
  }

  lemma TrimWindowBack(s: string, t: string)
    requires s != [] && IsSpace(s[|s| - 1])
    requires var p := s[..|s| - 1];
      exists i: nat, j: nat :: i <= j <= |p| && t == p[i..j] && SpaceOutside(p, i, j)
    ensures exists i: nat, j: nat :: i <= j <= |s| && t == s[i..j] && SpaceOutside(s, i, j)
  {
    var p := s[..|s| - 1];
    var i: nat, j: nat :| i <= j <= |p| && t == p[i..j] && SpaceOutside(p, i, j);
    assert p[i..j] == s[i..j];
    assert SpaceOutside(s, i, j);
  }

  // ---------------------------------------------------------------------------
  // numbers

  predicate IsDigit(c: char)
  {
    '0' <= c <= '9'
  }

  predicate AllDigits(s: string)
  {
    forall k :: 0 <= k < |s| ==> IsDigit(s[k])
  }

  function DigitChar(d: nat): (c: char)
    requires d < 10
    ensures IsDigit(c)
  {
    (('0' as int) + d) as char
  }

  /** The value of a string of decimal digits. */
  function DigitsValue(s: string): nat
    requires AllDigits(s)
  {
    if s == [] then 0
    else DigitsValue(s[..|s| - 1]) * 10 + ((s[|s| - 1] as int) - ('0' as int))
  }

  /** The decimal text of a natural number, as a template literal writes it. */
  function Decimal(n: nat): (s: string)
    ensures |s| >= 1 && AllDigits(s)
    decreases n
  {
    if n < 10 then [DigitChar(n)] else Decimal(n / 10) + [DigitChar(n % 10)]
  }

  /** Decimal text reads back as the number it was written from. */
  lemma {:induction false} DecimalRoundTrip(n: nat)
    ensures DigitsValue(Decimal(n)) == n
    decreases n
  {
    if n >= 10 {
      DecimalRoundTrip(n / 10);
      var s := Decimal(n);
      assert s[..|s| - 1] == Decimal(n / 10);
    }
  }

  /** The decimal text of an integer, with a leading minus sign when negative. */
  function IntToString(i: int): string
  {
    if i < 0 then "-" + Decimal(-i) else Decimal(i)
  }

  /** Length of the run of digits at the start of `s`. */
  function DigitRunLength(s: string): (n: nat)
    ensures n <= |s| && AllDigits(s[..n])
    ensures n < |s| ==> !IsDigit(s[n])
    decreases |s|
  {
    if s == [] || !IsDigit(s[0]) then 0 else 1 + DigitRunLength(s[1..])
  }

  lemma {:induction false} DigitRunOfDecimal(n: nat, rest: string)
    requires rest == [] || !IsDigit(rest[0])
    ensures DigitRunLength(Decimal(n) + rest) == |Decimal(n)|
  {
    var d := Decimal(n);
    DigitRunPrefix(d, rest);
  }

  lemma {:induction false} DigitRunPrefix(d: string, rest: string)
    requires AllDigits(d)
    requires rest == [] || !IsDigit(rest[0])
    ensures DigitRunLength(d + rest) == |d|
    decreases |d|
  {
    if d == [] {
      assert d + rest == rest;
    } else {
      assert (d + rest)[1..] == d[1..] + rest;
      DigitRunPrefix(d[1..], rest);
    }
  }

  const TWO_32: int := 0x1_0000_0000
  const TWO_31: int := 0x8000_0000

  /** The ECMAScript ToInt32 conversion applied by `x | 0`: wrap-around to 32-bit two's complement. */
  function ToInt32(x: int): (r: int)
    ensures -TWO_31 <= r < TWO_31
    ensures (x - r) % TWO_32 == 0
    ensures -TWO_31 <= x < TWO_31 ==> r == x
  {
    var m := x % TWO_32;
    if m >= TWO_31 then m - TWO_32 else m
  }

  /**
   * The integer part of the number that `Number(t)` reads from a trimmed, unsigned text `t`
   * written as `digits`, `digits.` / `digits.digits` or `.digits`; None for any other text.
   */
  function UnsignedIntegerPart(t: string): Option<nat>
  {
    var n := DigitRunLength(t);
    if n == |t| && n > 0 then Some(DigitsValue(t))
    else if n < |t| && t[n] == '.' && AllDigits(t[n + 1..]) && (n > 0 || n + 1 < |t|) then
      Some(DigitsValue(t[..n]))
    else None
  }

  /**
   * `s | 0` for a string `s`: the number `s` denotes, truncated toward zero and wrapped to
   * 32 bits; 0 for the empty text and for text that is not a decimal number (NaN).
   */
  function ToI(s: string): (r: int)
    ensures -TWO_31 <= r < TWO_31
  {
    var t := Trim(s);
    if t == [] then 0
    else
      var neg := t[0] == '-';
      var body := if t[0] == '-' || t[0] == '+' then t[1..] else t;
      match UnsignedIntegerPart(body)
      case None => 0
      case Some(v) => ToInt32(if neg then -(v as int) else v as int)
  }

  lemma {:induction false} TrimOfDigits(s: string)
    requires |s| >= 1 && AllDigits(s)
    ensures Trim(s) == s
  {
  }

  /** The decimal text of a 32-bit natural reads back, through `| 0`, as that number. */
  lemma DecimalToI(n: nat)
    requires n < TWO_31
    ensures ToI(Decimal(n)) == n
  {
    var d := Decimal(n);
    TrimOfDigits(d);
    DecimalRoundTrip(n);
    assert DigitRunLength(d) == |d| by { DigitRunPrefix(d, ""); assert d + "" == d; }
  }
}
