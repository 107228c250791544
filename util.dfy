/**
 * The helpers of src/util.js that the engine session and the game record use:
 * comparing move histories, framing a byte stream into lines, turning a flat
 * key/value list into a map, counting sequences, shortening text, de-duplicating
 * characters, detecting changes and JavaScript truthiness.
 */
module Util {
  import opened Wrappers
  import opened JsString

  // ---------------------------------------------------------------------------
  // common_header_length

  /** The part of a history record that `common_header_length` compares: the move and its colour. */
  datatype Play = Play(move: string, isBlack: bool)

  /**
   * `common_header_length(a, b)`: how many leading records of `a` agree with `b`
   * in move and colour. A position past the end of `b` never agrees.
   */
  function CommonHeaderLength(a: seq<Play>, b: seq<Play>): (k: nat)
    ensures k <= |a| && k <= |b|
    ensures a[..k] == b[..k]
    ensures k < |a| && k < |b| ==> a[k] != b[k]
    decreases |a|
  {
    if a == [] || b == [] || a[0] != b[0] then 0
    else
      var k := CommonHeaderLength(a[1..], b[1..]);
      assert a[..k + 1] == [a[0]] + a[1..][..k];
      assert b[..k + 1] == [b[0]] + b[1..][..k];
      1 + k
  }

  /** No longer prefix is shared: the result is the longest common prefix length. */
  lemma CommonHeaderLengthIsLongest(a: seq<Play>, b: seq<Play>, j: nat)
    requires j <= |a| && j <= |b| && a[..j] == b[..j]
    ensures j <= CommonHeaderLength(a, b)
  {
  }

  /** The comparison is symmetric in its two histories. */
  lemma CommonHeaderLengthSymmetric(a: seq<Play>, b: seq<Play>)
    ensures CommonHeaderLength(a, b) == CommonHeaderLength(b, a)
  {
    var k, k' := CommonHeaderLength(a, b), CommonHeaderLength(b, a);
    CommonHeaderLengthIsLongest(a, b, k');
    CommonHeaderLengthIsLongest(b, a, k);
  }

  // ---------------------------------------------------------------------------
  // each_line

  /** Drops one carriage return at the end of a piece (the `\r?` of `/\r?\n/`). */
  function DropCR(x: string): string
  {
    if x != [] && x[|x| - 1] == '\r' then x[..|x| - 1] else x
  }

  /** `s.split(/\r?\n/)`. */
  function SplitLines(s: string): (parts: seq<string>)
    ensures |parts| == |Split(s, '\n')|
    ensures forall i :: 0 <= i < |parts| ==> '\n' !in parts[i]
    ensures '\r' !in s ==> parts == Split(s, '\n')
    ensures parts[|parts| - 1] == Split(s, '\n')[|parts| - 1]
    ensures forall i :: 0 <= i < |parts| - 1 ==> parts[i] == DropCR(Split(s, '\n')[i])
  {
    var p := Split(s, '\n');
    var r := seq(|p|, i requires 0 <= i < |p| => if i < |p| - 1 then DropCR(p[i]) else p[i]);
    if '\r' !in s then
      assert forall i :: 0 <= i < |p| ==> '\r' !in p[i] by { SplitSubstrings(s, '\n'); }
      assert r == p;
      r
    else r
  }

  /**
   * Lines joined with `\n` split back into the same lines, provided no line holds a newline
   * and none but the last ends with a carriage return.
   */
  lemma SplitLinesJoin(ls: seq<string>)
    requires |ls| >= 1
    requires forall i :: 0 <= i < |ls| ==> '\n' !in ls[i]
    requires forall i :: 0 <= i < |ls| - 1 ==> ls[i] == [] || ls[i][|ls[i]| - 1] != '\r'
    ensures SplitLines(Join(ls, '\n')) == ls
  {
    SplitJoin(ls, '\n');
  }

  /** Every piece of a split is made of characters of the split text. */
  lemma {:induction false} SplitSubstrings(s: string, sep: char)
    ensures forall i, c :: 0 <= i < |Split(s, sep)| && c in Split(s, sep)[i] ==> c in s
    decreases |s|
  {
    if s != [] {
      SplitSubstrings(s[1..], sep);
      assert forall c :: c in s[1..] ==> c in s;
    }
  }

  /** Lines emitted so far, each followed by the newline that ended it. */
  function Lines(ls: seq<string>): string
  {
    if ls == [] then "" else ls[0] + "\n" + Lines(ls[1..])
  }

  lemma {:induction false} JoinAsLines(p: seq<string>)
    requires |p| >= 1
    ensures Join(p, '\n') == Lines(p[..|p| - 1]) + p[|p| - 1]
    decreases |p|
  {
    if |p| > 1 {
      JoinAsLines(p[1..]);
      assert p[1..][..|p| - 2] == p[..|p| - 1][1..];
    }
  }

  lemma {:induction false} LinesAppend(a: seq<string>, b: seq<string>)
    ensures Lines(a + b) == Lines(a) + Lines(b)
    decreases |a|
  {
    if a == [] {
      assert a + b == b;
    } else {
      LinesAppend(a[1..], b);
      assert (a + b)[1..] == a[1..] + b;
      calc {
        Lines(a + b);
        a[0] + "\n" + Lines(a[1..] + b);
        a[0] + "\n" + (Lines(a[1..]) + Lines(b));
        (a[0] + "\n" + Lines(a[1..])) + Lines(b);
      }
    }
  }

  /** A split has a single piece exactly when the separator does not occur. */
  lemma SplitSingle(s: string, sep: char)
    ensures |Split(s, sep)| == 1 <==> sep !in s
  {
    if sep !in s {
      SplitNoSep(s, sep);
    } else if |Split(s, sep)| == 1 {
      JoinSplit(s, sep);
      assert false;
    }
  }

  /**
   * One call of the closure `each_line(f)` returns: the lines handed to `f` for `chunk`
   * and the new buffer, given the buffer `buf` left by earlier chunks.
   */
  function FrameChunk(buf: string, chunk: string): (r: (seq<string>, string))
    ensures '\n' !in buf ==> forall i :: 0 <= i < |r.0| ==> '\n' !in r.0[i]
    ensures '\n' !in buf ==> '\n' !in r.1
  {
    var a := SplitLines(chunk);
    var done := a[..|a| - 1];
    if done == [] then (done, buf + a[|a| - 1])
    else ([buf + done[0]] + done[1..], a[|a| - 1])
  }

  /** A chunk without a newline emits nothing and only extends the buffer. */
  lemma FrameChunkBuffers(buf: string, chunk: string)
    requires '\n' !in chunk
    ensures FrameChunk(buf, chunk) == ([], buf + chunk)
  {
    SplitNoSep(chunk, '\n');
  }

  /** With newline-only input, the emitted lines (each with its newline) and the new buffer are the old buffer and the chunk. */
  lemma FrameChunkComplete(buf: string, chunk: string)
    requires '\r' !in chunk
    ensures Lines(FrameChunk(buf, chunk).0) + FrameChunk(buf, chunk).1 == buf + chunk
  {
    var a := SplitLines(chunk);
    var rest := a[|a| - 1];
    var done := a[..|a| - 1];
    assert chunk == Lines(done) + rest by {
      JoinSplit(chunk, '\n');
      JoinAsLines(a);
    }
    if done != [] {
      var lines := [buf + done[0]] + done[1..];
      assert FrameChunk(buf, chunk) == (lines, rest);
      var tail := Lines(done[1..]);
      assert Lines(lines) == buf + done[0] + "\n" + tail by {
        assert lines[1..] == done[1..];
      }
      assert Lines(done) == done[0] + "\n" + tail;
      AppendAssoc(buf, done[0], "\n");
      AppendAssoc(buf, done[0] + "\n", tail);
      AppendAssoc(buf, Lines(done), rest);
    }
  }

  /** The state of the closure returned by `each_line`: the text after the last newline. */
  class LineFramer {
    var buf: string
    ghost var fed: string
    ghost var emitted: seq<string>

    /** With newline-only input, the emitted lines and the buffer make up all that was fed. */
    ghost predicate Valid()
      reads this
    {
      && '\n' !in buf
      && (forall i :: 0 <= i < |emitted| ==> '\n' !in emitted[i])
      && ('\r' !in fed ==> Lines(emitted) + buf == fed)
    }

    constructor ()
      ensures Valid() && buf == "" && fed == "" && emitted == []
    {
      buf, fed, emitted := "", "", [];
    }

    /** Feeds one chunk and returns the complete lines it finishes, in order. */
    method Feed(chunk: string) returns (lines: seq<string>)
      requires Valid()
      modifies this
      ensures Valid()
      ensures (lines, buf) == FrameChunk(old(buf), chunk)
      ensures fed == old(fed) + chunk && emitted == old(emitted) + lines
    {
      var a := SplitLines(chunk);
      var rest := a[|a| - 1];
      a := a[..|a| - 1];
      ghost var done := a;
      if a != [] {
        a := [buf + a[0]] + a[1..];
        buf := "";
      }
      buf := buf + rest;
      lines := a;
      assert done == [] ==> lines == [] && buf == old(buf) + rest;
      assert done != [] ==> lines == [old(buf) + done[0]] + done[1..] && buf == rest;
      assert (lines, buf) == FrameChunk(old(buf), chunk);
      FramerStep(emitted, old(buf), fed, chunk);
      fed := fed + chunk;
      emitted := emitted + lines;
    }
  }

  /** One `Feed` keeps the framer's completeness invariant. */
  lemma FramerStep(emitted: seq<string>, buf: string, fed: string, chunk: string)
    requires '\r' !in fed ==> Lines(emitted) + buf == fed
    ensures '\r' !in fed + chunk ==>
      Lines(emitted + FrameChunk(buf, chunk).0) + FrameChunk(buf, chunk).1 == fed + chunk
  {
    if '\r' !in fed + chunk {
      var r := FrameChunk(buf, chunk);
      assert '\r' !in fed && '\r' !in chunk by {
        assert forall c :: c in fed || c in chunk ==> c in fed + chunk;
      }
      assert Lines(r.0) + r.1 == buf + chunk by { FrameChunkComplete(buf, chunk); }
      assert Lines(emitted + r.0) == Lines(emitted) + Lines(r.0) by { LinesAppend(emitted, r.0); }
      AppendAssoc(Lines(emitted), Lines(r.0), r.1);
      AppendAssoc(Lines(emitted), buf, chunk);
    }
  }

  // ---------------------------------------------------------------------------
  // array2hash

  /** `a[j]`, or undefined past the end. */
  function ValueAt(a: seq<string>, j: nat): Option<string>
  {
    if j < |a| then Some(a[j]) else None
  }

  /** The map after the first `n` even positions of `a` have been stored, each key to its successor. */
  function PairsUpTo(a: seq<string>, n: nat): map<string, Option<string>>
    requires 2 * n <= |a| + 1
  {
    if n == 0 then map[] else PairsUpTo(a, n - 1)[a[2 * (n - 1)] := ValueAt(a, 2 * n - 1)]
  }

  /** The map `array2hash(a)` builds. */
  function PairsToMap(a: seq<string>): map<string, Option<string>>
  {
    PairsUpTo(a, (|a| + 1) / 2)
  }

  /** `array2hash(a)`: each even-position element is a key for the element after it. */
  method Array2Hash(a: seq<string>) returns (h: map<string, Option<string>>)
    ensures h == PairsToMap(a)
  {
    h := map[];
    var i := 0;
    while i < |a|
      invariant 0 <= i <= |a|
      invariant h == PairsUpTo(a, (i + 1) / 2)
    {
      if i % 2 == 0 {
        h := h[a[i] := ValueAt(a, i + 1)];
      }
      i := i + 1;
    }
  }

  /** The keys are exactly the elements at even positions. */
  lemma {:induction false} PairsUpToKeys(a: seq<string>, n: nat)
    requires 2 * n <= |a| + 1
    ensures forall k :: k in PairsUpTo(a, n) <==> exists i :: 0 <= i < n && a[2 * i] == k
  {
    if n > 0 {
      PairsUpToKeys(a, n - 1);
    }
  }

  /** Each key maps to the successor of its last even-position occurrence (later keys overwrite). */
  lemma {:induction false} PairsUpToLastWins(a: seq<string>, n: nat, i: nat)
    requires 2 * n <= |a| + 1
    requires i < n
    requires forall j :: i < j < n ==> a[2 * j] != a[2 * i]
    ensures a[2 * i] in PairsUpTo(a, n) && PairsUpTo(a, n)[a[2 * i]] == ValueAt(a, 2 * i + 1)
  {
    if i < n - 1 {
      PairsUpToLastWins(a, n - 1, i);
    }
  }

  /** `array2hash`: keys are the even-position elements, each mapped to its last successor. */
  lemma Array2HashMeaning(a: seq<string>, i: nat)
    requires i < |a| && i % 2 == 0
    requires forall j :: i < j < |a| && j % 2 == 0 ==> a[j] != a[i]
    ensures a[i] in PairsToMap(a) && PairsToMap(a)[a[i]] == ValueAt(a, i + 1)
    ensures forall k :: k in PairsToMap(a) <==> exists m :: 0 <= m < |a| && m % 2 == 0 && a[m] == k
  {
    var n := (|a| + 1) / 2;
    forall j | i / 2 < j < n ensures a[2 * j] != a[2 * (i / 2)] {
      assert 2 * (i / 2) == i;
    }
    PairsUpToLastWins(a, n, i / 2);
    PairsUpToKeys(a, n);
    forall k ensures k in PairsToMap(a) <==> exists m :: 0 <= m < |a| && m % 2 == 0 && a[m] == k {
      if k in PairsToMap(a) {
        var j :| 0 <= j < n && a[2 * j] == k;
        assert 2 * j < |a| && (2 * j) % 2 == 0;
      }
      if exists m :: 0 <= m < |a| && m % 2 == 0 && a[m] == k {
        var m :| 0 <= m < |a| && m % 2 == 0 && a[m] == k;
        assert m / 2 < n && a[2 * (m / 2)] == k;
      }
    }
  }

  // ---------------------------------------------------------------------------
  // seq and do_ntimes

  /** `seq(n, from)`: the `n` consecutive integers starting at `from`. */
  function Seq(n: nat, from: int := 0): (r: seq<int>)
    ensures |r| == n
    ensures forall i :: 0 <= i < n ==> r[i] == i + from
    decreases n
  {
    if n == 0 then [] else [from] + Seq(n - 1, from + 1)
  }

  /** Threads a state through calls `f(state, x)` for each `x` of `xs`, in order (`forEach`). */
  function ForEach<S>(xs: seq<int>, f: (S, int) -> S, s: S): S
    decreases |xs|
  {
    if xs == [] then s else ForEach(xs[1..], f, f(s, xs[0]))
  }

  /** `do_ntimes(n, f)`: `f` called on `0, 1, ..., n - 1`. */
  function DoNTimes<S>(n: nat, f: (S, int) -> S, s: S): S
  {
    ForEach(Seq(n), f, s)
  }

  lemma {:induction false} ForEachRecords(xs: seq<int>, f: (seq<int>, int) -> seq<int>, log: seq<int>)
    requires forall l, x :: f(l, x) == l + [x]
    ensures ForEach(xs, f, log) == log + xs
    decreases |xs|
  {
    if xs != [] {
      ForEachRecords(xs[1..], f, log + [xs[0]]);
      assert log + [xs[0]] + xs[1..] == log + xs;
    }
  }

  /** A call log shows that `do_ntimes(n, f)` calls `f` exactly `n` times, with 0 to n - 1 in order. */
  lemma DoNTimesCalls(n: nat, f: (seq<int>, int) -> seq<int>)
    requires forall l, x :: f(l, x) == l + [x]
    ensures DoNTimes(n, f, []) == Seq(n) && |DoNTimes(n, f, [])| == n
  {
    ForEachRecords(Seq(n), f, []);
  }

  // ---------------------------------------------------------------------------
  // snip_text

  /** The `dots` argument: a literal text, or a function of the number of characters cut. */
  datatype Dots = Raw(text: string) | Counted(describe: nat -> string)

  function DotsText(dots: Dots, over: nat): string
  {
    match dots
    case Raw(t) => t
    case Counted(f) => f(over)
  }

  /** `snip_text(str, head, tail, dots)`. */
  function SnipText(str: string, head: nat, tail: nat, dots: Dots): string
  {
    if |str| <= head + tail then str
    else str[..head] + DotsText(dots, |str| - (head + tail)) + (if tail > 0 then str[|str| - tail..] else "")
  }

  /**
   * Short text is returned whole; longer text keeps exactly its first `head` and last
   * `tail` characters around the dots text for the `|str| - head - tail` characters cut.
   */
  lemma SnipTextShape(str: string, head: nat, tail: nat, dots: Dots)
    ensures |str| <= head + tail ==> SnipText(str, head, tail, dots) == str
    ensures |str| > head + tail ==>
      var r := SnipText(str, head, tail, dots);
      var d := DotsText(dots, |str| - head - tail);
      && |r| == head + |d| + tail
      && r[..head] == str[..head]
      && r[head..head + |d|] == d
      && r[head + |d|..] == str[|str| - tail..]
  {
  }

  // ---------------------------------------------------------------------------
  // str_uniq

  /** The characters of `s` not in `seen`, each at its first occurrence. */
  function UniqFrom(s: string, seen: set<char>): string
    decreases |s|
  {
    if s == [] then []
    else if s[0] in seen then UniqFrom(s[1..], seen)
    else [s[0]] + UniqFrom(s[1..], seen + {s[0]})
  }

  /** `str_uniq(str)`: `[...new Set(str.split(''))].join('')`. */
  function StrUniq(s: string): string
  {
    UniqFrom(s, {})
  }

  /** Independent description: keep position `i` exactly when `s[i]` does not occur before it. */
  function FirstOccurrences(s: string): string
    decreases |s|
  {
    if s == [] then []
    else
      var init := s[..|s| - 1];
      FirstOccurrences(init) + (if s[|s| - 1] in init then [] else [s[|s| - 1]])
  }

  lemma {:induction false} UniqFromSnoc(s: string, seen: set<char>, c: char)
    ensures UniqFrom(s + [c], seen) ==
      UniqFrom(s, seen) + (if c in seen || c in s then [] else [c])
    decreases |s|
  {
    if s == [] {
      assert s + [c] == [c];
    } else {
      assert (s + [c])[1..] == s[1..] + [c];
      if s[0] in seen {
        UniqFromSnoc(s[1..], seen, c);
        assert c in s <==> c in s[1..] || c == s[0];
      } else {
        UniqFromSnoc(s[1..], seen + {s[0]}, c);
        assert c in s <==> c in s[1..] || c == s[0];
      }
    }
  }

  /** `str_uniq` keeps exactly the first occurrence of every character, in order. */
  lemma {:induction false} StrUniqIsFirstOccurrences(s: string)
    ensures StrUniq(s) == FirstOccurrences(s)
    decreases |s|
  {
    if s != [] {
      var init := s[..|s| - 1];
      StrUniqIsFirstOccurrences(init);
      UniqFromSnoc(init, {}, s[|s| - 1]);
      assert init + [s[|s| - 1]] == s;
    }
  }

  lemma {:induction false} UniqFromProperties(s: string, seen: set<char>)
    ensures forall i, j :: 0 <= i < j < |UniqFrom(s, seen)| ==> UniqFrom(s, seen)[i] != UniqFrom(s, seen)[j]
    ensures forall c :: c in UniqFrom(s, seen) <==> c in s && c !in seen
    decreases |s|
  {
    if s != [] {
      if s[0] in seen {
        UniqFromProperties(s[1..], seen);
      } else {
        UniqFromProperties(s[1..], seen + {s[0]});
        var r := UniqFrom(s[1..], seen + {s[0]});
        assert UniqFrom(s, seen) == [s[0]] + r;
        forall i, j | 0 <= i < j < |[s[0]] + r| ensures ([s[0]] + r)[i] != ([s[0]] + r)[j] {
          if i == 0 {
            assert ([s[0]] + r)[j] == r[j - 1] && r[j - 1] in r;
          }
        }
      }
    }
  }

  /** The result has no repeated character and has the same characters as the input. */
  lemma StrUniqNoDuplicates(s: string)
    ensures forall i, j :: 0 <= i < j < |StrUniq(s)| ==> StrUniq(s)[i] != StrUniq(s)[j]
    ensures forall c :: c in StrUniq(s) <==> c in s
  {
    UniqFromProperties(s, {});
  }

  /** The example in the source: `str_uniq('zabcacd') = 'zabcd'`. */
  lemma StrUniqExample()
    ensures StrUniq("zabcacd") == "zabcd"
  {
  }

  // ---------------------------------------------------------------------------
  // change_detector

  /** `change_detector(init_val)`: reports whether a value differs from the one seen last. */
  class ChangeDetector<T(==)> {
    const initVal: T
    var prev: T

    constructor (initVal: T)
      ensures this.initVal == initVal && prev == initVal
    {
      this.initVal := initVal;
      prev := initVal;
    }

    /** `is_changed(val)`: true iff `val` differs from the value seen last; remembers `val`. */
    method IsChanged(val: T) returns (changed: bool)
      modifies this
      ensures changed <==> val != old(prev)
      ensures prev == val
    {
      changed := val != prev;
      prev := val;
    }

    /** `reset()`: forgets what was seen, as if only the initial value had been. */
    method Reset()
      modifies this
      ensures prev == initVal
    {
      prev := initVal;
    }
  }

  // ---------------------------------------------------------------------------
  // truep and clip

  /** The JavaScript values that `truep` distinguishes. */
  datatype JsValue = Undefined | Null | Bool(b: bool) | Num(n: int) | NaN | Str(s: string) | Obj

  /** JavaScript's `!!x`. */
  predicate Truthy(x: JsValue)
  {
    match x
    case Undefined => false
    case Null => false
    case Bool(b) => b
    case Num(n) => n != 0
    case NaN => false
    case Str(s) => s != ""
    case Obj => true
  }

  /** `truep(x)`: `!!x || x === 0 || x === ''`. */
  predicate Truep(x: JsValue)
  {
    Truthy(x) || x == Num(0) || x == Str("")
  }

  /** Only undefined, null, false and NaN fail `truep`. */
  lemma TruepMeaning(x: JsValue)
    ensures !Truep(x) <==> x == Undefined || x == Null || x == Bool(false) || x == NaN
  {
  }

  /** `clip(x, lower, upper)`, where a missing `upper` means no upper bound. */
  function Clip(x: int, lower: int, upper: Option<int>): (r: int)
    ensures r >= lower
    ensures upper.Some? && lower <= upper.value ==> r <= upper.value
    ensures lower <= x && (upper.None? || x <= upper.value) ==> r == x
    ensures x <= lower ==> r == lower
    ensures upper.Some? && upper.value < lower ==> r == lower
    ensures upper.Some? && lower <= upper.value <= x ==> r == upper.value
  {
    var capped := if upper.Some? && upper.value < x then upper.value else x;
    if capped < lower then lower else capped
  }

  /** Within a non-empty range, `clip` picks the point of the range nearest to `x`. */
  lemma ClipNearest(x: int, lower: int, upper: Option<int>, y: int)
    requires lower <= y && (upper.None? || (lower <= upper.value && y <= upper.value))
    ensures var r := Clip(x, lower, upper);
      (if x < r then r - x else x - r) <= (if x < y then y - x else x - y)
  {
  }
}
