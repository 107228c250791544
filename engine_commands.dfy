/**
 * The pure parts of src/engine.js: the command predicates that drive queue pruning,
 * the GTP request and reply formats, the board diff behind `set_board`, and the parsers
 * for endstate rows and `lz-analyze` / `kata-analyze` suggestion lines.
 */
module EngineCommands {
  import opened Wrappers
  import opened JsString
  import opened Util

  // ---------------------------------------------------------------------------
  // queue entries and command predicates

  /**
   * A queue entry: a command line for the engine, or the `lizgoban_set` marker that
   * records the move count and turn of the board the commands before it produce. The
   * marker's text is `lizgoban_set` followed by a JSON object of a number and a boolean,
   * which none of the command predicates below matches; so they are false of markers.
   */
  datatype Entry = Cmd(text: string) | Marker(moveCount: nat, bturn: bool)

  /** `/^(lz|kata)-analyze/`: an analysis command, superseded by any later command. */
  predicate IsPonderingText(t: string)
  {
    StartsWith(t, "lz-analyze") || StartsWith(t, "kata-analyze")
  }

  /** `/^endstate_map/`. */
  predicate IsEndstateText(t: string)
  {
    StartsWith(t, "endstate_map")
  }

  /** `/play|undo|clear_board/`: a command that changes the board. */
  predicate IsChangerText(t: string)
  {
    Contains(t, "play") || Contains(t, "undo") || Contains(t, "clear_board")
  }

  /** From index `k` on, `undo` occurs before any line terminator (the `.*undo` of a regular expression). */
  predicate UndoAhead(t: string, k: nat)
    decreases |t| - k
  {
    if OccursAt(t, "undo", k) then true
    else if k >= |t| || IsLineTerminator(t[k]) then false
    else UndoAhead(t, k + 1)
  }

  /** `/play.*undo/`: a peek, which plays a move, reads the evaluation and takes it back. */
  predicate IsPeekText(t: string)
  {
    exists i | 0 <= i <= |t| :: OccursAt(t, "play", i) && UndoAhead(t, i + 4)
  }

  predicate IsPondering(e: Entry) { e.Cmd? && IsPonderingText(e.text) }
  predicate IsEndstate(e: Entry) { e.Cmd? && IsEndstateText(e.text) }
  predicate IsChanger(e: Entry) { e.Cmd? && IsChangerText(e.text) }
  predicate IsPeek(e: Entry) { e.Cmd? && IsPeekText(e.text) }

  /** No line terminator in `t[from..to]`. */
  predicate OneLine(t: string, from: nat, to: nat)
    requires from <= to <= |t|
  {
    forall m :: from <= m < to ==> !IsLineTerminator(t[m])
  }

  lemma {:induction false} UndoAheadMeaning(t: string, k: nat)
    ensures UndoAhead(t, k) <==>
      exists j :: k <= j && OccursAt(t, "undo", j) && OneLine(t, k, j)
    decreases |t| - k
  {
    if OccursAt(t, "undo", k) {
      assert OneLine(t, k, k);
    } else if k >= |t| || IsLineTerminator(t[k]) {
    } else {
      UndoAheadMeaning(t, k + 1);
      if exists j :: k + 1 <= j && OccursAt(t, "undo", j) && OneLine(t, k + 1, j) {
        var j :| k + 1 <= j && OccursAt(t, "undo", j) && OneLine(t, k + 1, j);
        assert OneLine(t, k, j);
      }
      if exists j :: k <= j && OccursAt(t, "undo", j) && OneLine(t, k, j) {
        var j :| k <= j && OccursAt(t, "undo", j) && OneLine(t, k, j);
        assert j != k;
        assert OneLine(t, k + 1, j);
      }
    }
  }

  /** A peek is a `play` followed, on the same line, by an `undo`. */
  lemma PeekMeaning(t: string)
    ensures IsPeekText(t) <==>
      exists i, j :: 0 <= i && i + 4 <= j && OccursAt(t, "play", i) && OccursAt(t, "undo", j) && OneLine(t, i + 4, j)
  {
    if IsPeekText(t) {
      var i :| 0 <= i <= |t| && OccursAt(t, "play", i) && UndoAhead(t, i + 4);
      UndoAheadMeaning(t, i + 4);
      var j :| i + 4 <= j && OccursAt(t, "undo", j) && OneLine(t, i + 4, j);
      assert 0 <= i && i + 4 <= j && OccursAt(t, "play", i) && OccursAt(t, "undo", j) && OneLine(t, i + 4, j);
    }
    if exists i, j :: 0 <= i && i + 4 <= j && OccursAt(t, "play", i) && OccursAt(t, "undo", j) && OneLine(t, i + 4, j) {
      var i, j :| 0 <= i && i + 4 <= j && OccursAt(t, "play", i) && OccursAt(t, "undo", j) && OneLine(t, i + 4, j);
      assert UndoAhead(t, i + 4) by {
        UndoAheadMeaning(t, i + 4);
      }
      assert 0 <= i <= |t| && OccursAt(t, "play", i) && UndoAhead(t, i + 4);
    }
  }

  /** A peek always counts as a board change. */
  lemma PeekIsChanger(t: string)
    requires IsPeekText(t)
    ensures IsChangerText(t)
  {
    var i :| 0 <= i <= |t| && OccursAt(t, "play", i) && UndoAhead(t, i + 4);
    ContainsIff(t, "play");
  }

  // ---------------------------------------------------------------------------
  // pruning in send_to_queue

  datatype Kind = PonderingKind | EndstateKind | PeekKind

  predicate OfKind(e: Entry, k: Kind)
  {
    match k
    case PonderingKind => IsPondering(e)
    case EndstateKind => IsEndstate(e)
    case PeekKind => IsPeek(e)
  }

  /** `command_queue.filter(x => !f(x))` for one of the three predicates. */
  function Without(q: seq<Entry>, k: Kind): seq<Entry>
  {
    if q == [] then [] else (if OfKind(q[0], k) then [] else [q[0]]) + Without(q[1..], k)
  }

  /** `send_to_queue(s)` before dispatch: the three removals, in the source's order, then the push. */
  function Pruned(q: seq<Entry>, s: Entry): seq<Entry>
  {
    Remaining(q, s) + [s]
  }

  /** What is left of the queue after the removals `send_to_queue(s)` makes. */
  function Remaining(q: seq<Entry>, s: Entry): seq<Entry>
  {
    AfterEndstateRule(Without(q, PonderingKind), s)
  }

  /** The second removal and what follows it. */
  function AfterEndstateRule(q: seq<Entry>, s: Entry): seq<Entry>
  {
    AfterChangerRule(if IsEndstate(s) then Without(q, EndstateKind) else q, s)
  }

  /** The third rule: a board change removes queued endstate requests and peeks. */
  function AfterChangerRule(q: seq<Entry>, s: Entry): seq<Entry>
  {
    if IsChanger(s) then Without(Without(q, EndstateKind), PeekKind) else q
  }

  lemma WithoutCons(x: Entry, b: seq<Entry>, k: Kind)
    ensures OfKind(x, k) ==> Without([x] + b, k) == Without(b, k)
    ensures !OfKind(x, k) ==> Without([x] + b, k) == [x] + Without(b, k)
  {
    assert ([x] + b)[1..] == b;
    assert [] + Without(b, k) == Without(b, k);
  }

  /** Whether a queued entry `e` outlives the arrival of `s`. */
  predicate Survives(s: Entry, e: Entry)
  {
    !IsPondering(e) && SurvivesEndstateRule(s, e)
  }

  predicate SurvivesEndstateRule(s: Entry, e: Entry)
  {
    !(IsEndstate(s) && IsEndstate(e)) && SurvivesChangerRule(s, e)
  }

  predicate SurvivesChangerRule(s: Entry, e: Entry)
  {
    !(IsChanger(s) && (IsEndstate(e) || IsPeek(e)))
  }

  lemma AfterChangerRuleCons(x: Entry, b: seq<Entry>, s: Entry)
    ensures SurvivesChangerRule(s, x) ==> AfterChangerRule([x] + b, s) == [x] + AfterChangerRule(b, s)
    ensures !SurvivesChangerRule(s, x) ==> AfterChangerRule([x] + b, s) == AfterChangerRule(b, s)
  {
    if IsChanger(s) {
      WithoutCons(x, b, EndstateKind);
      if !IsEndstate(x) {
        WithoutCons(x, Without(b, EndstateKind), PeekKind);
      }
    }
  }

  lemma AfterEndstateRuleCons(x: Entry, b: seq<Entry>, s: Entry)
    ensures SurvivesEndstateRule(s, x) ==> AfterEndstateRule([x] + b, s) == [x] + AfterEndstateRule(b, s)
    ensures !SurvivesEndstateRule(s, x) ==> AfterEndstateRule([x] + b, s) == AfterEndstateRule(b, s)
  {
    WithoutCons(x, b, EndstateKind);
    if IsEndstate(s) {
      if !IsEndstate(x) {
        AfterChangerRuleCons(x, Without(b, EndstateKind), s);
      }
    } else {
      AfterChangerRuleCons(x, b, s);
    }
  }

  lemma RemainingCons(x: Entry, b: seq<Entry>, s: Entry)
    ensures Survives(s, x) ==> Remaining([x] + b, s) == [x] + Remaining(b, s)
    ensures !Survives(s, x) ==> Remaining([x] + b, s) == Remaining(b, s)
  {
    WithoutCons(x, b, PonderingKind);
    if !IsPondering(x) {
      AfterEndstateRuleCons(x, Without(b, PonderingKind), s);
    }
  }

  /** The entries of `q` that survive `s`, in their order: one filter with the combined condition. */
  function Survivors(q: seq<Entry>, s: Entry): seq<Entry>
  {
    if q == [] then [] else (if Survives(s, q[0]) then [q[0]] else []) + Survivors(q[1..], s)
  }

  /** The three successive removals keep exactly the survivors, in order, and `s` comes last. */
  lemma {:induction false} PrunedIsSurvivors(q: seq<Entry>, s: Entry)
    ensures Pruned(q, s) == Survivors(q, s) + [s]
  {
    RemainingIsSurvivors(q, s);
  }

  lemma {:induction false} RemainingIsSurvivors(q: seq<Entry>, s: Entry)
    ensures Remaining(q, s) == Survivors(q, s)
    decreases |q|
  {
    if q != [] {
      var x, r := q[0], q[1..];
      assert q == [x] + r;
      RemainingIsSurvivors(r, s);
      RemainingCons(x, r, s);
      assert [] + Survivors(r, s) == Survivors(r, s);
    }
  }

  lemma {:induction false} SurvivorsMembers(q: seq<Entry>, s: Entry)
    ensures forall e :: e in Survivors(q, s) <==> e in q && Survives(s, e)
    decreases |q|
  {
    if q != [] {
      SurvivorsMembers(q[1..], s);
      assert q == [q[0]] + q[1..];
    }
  }

  /**
   * After `send_to_queue(s)` and before dispatch: `s` is last; no analysis command is left
   * before it; after an `endstate_map` no other `endstate_map`; after a board change no
   * `endstate_map` and no peek; and every other entry of the old queue is still there.
   */
  lemma PrunedProperties(q: seq<Entry>, s: Entry)
    ensures var r := Pruned(q, s);
      && |r| >= 1 && r[|r| - 1] == s
      && (forall i :: 0 <= i < |r| - 1 ==> !IsPondering(r[i]))
      && (IsEndstate(s) ==> forall i :: 0 <= i < |r| - 1 ==> !IsEndstate(r[i]))
      && (IsChanger(s) ==> forall i :: 0 <= i < |r| - 1 ==> !IsEndstate(r[i]) && !IsPeek(r[i]))
      && (forall e :: e in q && Survives(s, e) ==> e in r[..|r| - 1])
      && (forall e :: e in r[..|r| - 1] ==> e in q)
  {
    var r := Pruned(q, s);
    PrunedIsSurvivors(q, s);
    SurvivorsMembers(q, s);
    assert r[..|r| - 1] == Survivors(q, s);
    forall i | 0 <= i < |r| - 1 ensures Survives(s, r[i]) {
      assert r[i] in Survivors(q, s);
    }
  }

  // ---------------------------------------------------------------------------
  // requests and replies

  /** `${id} ${cmd}`: a GTP request with its id. */
  function FormatCommand(id: int, cmd: string): string
  {
    IntToString(id) + " " + cmd
  }

  /** A GTP reply header: success (`=`) or failure (`?`) and the id it answers. */
  datatype Reply = Reply(ok: bool, id: int)

  /** `/^([=?])(\d+)/` on a line of standard output, with the digits read by `to_i`. */
  function ParseReply(line: string): (r: Option<Reply>)
    ensures r.Some? <==> |line| >= 2 && (line[0] == '=' || line[0] == '?') && IsDigit(line[1])
    ensures r.Some? ==> r.value.ok == (line[0] == '=')
  {
    if |line| >= 1 && (line[0] == '=' || line[0] == '?') then
      var n := DigitRunLength(line[1..]);
      if n > 0 then Some(Reply(line[0] == '=', ToI(line[1..][..n]))) else None
    else None
  }

  /** The reply header for id `n` (in the 32-bit range) reads back as `n`, whatever follows the digits. */
  lemma ReplyRoundTrip(ok: bool, n: nat, rest: string)
    requires n < TWO_31
    requires rest == [] || !IsDigit(rest[0])
    ensures ParseReply([if ok then '=' else '?'] + Decimal(n) + rest) == Some(Reply(ok, n))
  {
    var c := if ok then '=' else '?';
    var d := Decimal(n);
    var line := [c] + d + rest;
    assert line[1..] == d + rest by {
      AppendAssoc([c], d, rest);
    }
    assert DigitRunLength(d + rest) == |d| by {
      DigitRunOfDecimal(n, rest);
    }
    assert (d + rest)[..|d|] == d;
    assert ToI(d) == n by {
      DecimalToI(n);
    }
  }

  /** A request for a non-negative id starts with that id's digits and a space. */
  lemma FormatCommandShape(id: nat, cmd: string)
    ensures var r := FormatCommand(id, cmd);
      |r| > |Decimal(id)| && r[..|Decimal(id)|] == Decimal(id) && r[|Decimal(id)|] == ' '
      && r[|Decimal(id)| + 1..] == cmd
  {
  }

  /** `/^info /`: a line of analysis output. */
  predicate IsInfoLine(s: string)
  {
    StartsWith(s, "info ")
  }

  // ---------------------------------------------------------------------------
  // board diff in set_board

  /** A board command: `undo1` or `play1`. */
  datatype BoardOp = Undo | PlayMove(play: Play)

  function OpText(op: BoardOp): string
  {
    match op
    case Undo => "undo"
    case PlayMove(p) => "play " + (if p.isBlack then "b " else "w ") + p.move
  }

  function Undos(n: nat): (ops: seq<BoardOp>)
    ensures |ops| == n && forall i :: 0 <= i < n ==> ops[i] == Undo
  {
    seq(n, _ => Undo)
  }

  function PlayAll(ps: seq<Play>): (ops: seq<BoardOp>)
    ensures |ops| == |ps| && forall i :: 0 <= i < |ps| ==> ops[i] == PlayMove(ps[i])
  {
    seq(|ps|, i requires 0 <= i < |ps| => PlayMove(ps[i]))
  }

  /** The commands `set_board(history)` queues for a non-empty history when the engine's board is `prev`. */
  function BoardDiff(history: seq<Play>, prev: seq<Play>): (ops: seq<BoardOp>)
    ensures var k := CommonHeaderLength(history, prev);
      |ops| == (|prev| - k) + (|history| - k)
  {
    var k := CommonHeaderLength(history, prev);
    Undos(|prev| - k) + PlayAll(history[k..])
  }

  /** What a board command does to the engine's move sequence. */
  function Apply(board: seq<Play>, op: BoardOp): seq<Play>
  {
    match op
    case Undo => if board == [] then [] else board[..|board| - 1]
    case PlayMove(p) => board + [p]
  }

  function Replay(board: seq<Play>, ops: seq<BoardOp>): seq<Play>
    decreases |ops|
  {
    if ops == [] then board else Replay(Apply(board, ops[0]), ops[1..])
  }

  lemma {:induction false} ReplayUndos(board: seq<Play>, n: nat, ops: seq<BoardOp>)
    requires n <= |board|
    ensures Replay(board, Undos(n) + ops) == Replay(board[..|board| - n], ops)
    decreases n
  {
    if n == 0 {
      assert Undos(n) + ops == ops;
      assert board[..|board|] == board;
    } else {
      var us := Undos(n) + ops;
      assert us[1..] == Undos(n - 1) + ops;
      ReplayUndos(board[..|board| - 1], n - 1, ops);
      assert board[..|board| - 1][..|board| - 1 - (n - 1)] == board[..|board| - n];
    }
  }

  lemma {:induction false} ReplayPlays(board: seq<Play>, ps: seq<Play>)
    ensures Replay(board, PlayAll(ps)) == board + ps
    decreases |ps|
  {
    if ps == [] {
      assert board + ps == board;
    } else {
      assert PlayAll(ps)[1..] == PlayAll(ps[1..]);
      ReplayPlays(board + [ps[0]], ps[1..]);
      assert board + [ps[0]] + ps[1..] == board + ps;
    }
  }

  /** Replaying the diff on the engine's sequence reaches exactly the target history. */
  lemma BoardDiffReaches(history: seq<Play>, prev: seq<Play>)
    ensures Replay(prev, BoardDiff(history, prev)) == history
  {
    var k := CommonHeaderLength(history, prev);
    ReplayUndos(prev, |prev| - k, PlayAll(history[k..]));
    assert prev[..|prev| - (|prev| - k)] == prev[..k];
    ReplayPlays(prev[..k], history[k..]);
    assert history[..k] + history[k..] == history;
  }

  /** Going from A B C to A B D takes back one move and plays D. */
  lemma BoardDiffExample(a: Play, b: Play, c: Play, d: Play)
    requires c != d
    ensures BoardDiff([a, b, d], [a, b, c]) == [Undo, PlayMove(d)]
  {
    var x, y := [a, b, d], [a, b, c];
    var k := CommonHeaderLength(x, y);
    assert k == 2 by {
      assert x[..2] == y[..2];
      CommonHeaderLengthIsLongest(x, y, 2);
      assert x[..3] == x && y[..3] == y && x != y;
    }
    assert x[2..] == [d];
    assert Undos(1) == [Undo];
    assert PlayAll([d]) == [PlayMove(d)];
  }

  /** No character of the `play b ` / `play w ` prefix begins an `undo`. */
  lemma PlayTextUndo(p: Play, j: nat)
    requires OccursAt(OpText(PlayMove(p)), "undo", j)
    ensures j >= 7 && OccursAt(p.move, "undo", j - 7)
  {
    var t := OpText(PlayMove(p));
    assert t[j] == "undo"[0];
    assert t[..7] == "play " + (if p.isBlack then "b " else "w ");
    assert t[j..j + 4] == p.move[j - 7..j - 3];
  }

  /** Board commands of GTP moves are never pruned away by later commands. */
  lemma BoardCommandSurvives(s: Entry, op: BoardOp)
    requires op.PlayMove? ==> !Contains(op.play.move, "undo")
    ensures Survives(s, Cmd(OpText(op)))
    ensures IsChanger(Cmd(OpText(op)))
  {
    match op
    case Undo => UndoTextKind();
    case PlayMove(p) => PlayTextKind(p);
  }

  /** `undo` is a board change and neither analysis, endstate nor a peek. */
  lemma UndoTextKind()
    ensures var t := OpText(Undo);
      !IsPonderingText(t) && !IsEndstateText(t) && !IsPeekText(t) && IsChangerText(t)
  {
    var t := OpText(Undo);
    FirstCharRules(t, "lz-analyze");
    FirstCharRules(t, "kata-analyze");
    FirstCharRules(t, "endstate_map");
    forall i | 0 <= i <= |t| ensures !OccursAt(t, "play", i) {
      assert i + 4 <= |t| ==> i == 0 && t[i..i + 4][0] == 'u';
    }
    assert OccursAt(t, "undo", 0);
    ContainsIff(t, "undo");
  }

  /** `clear_board` is a board change and neither analysis, endstate nor a peek; it goes out as one part. */
  lemma ClearBoardTextKind()
    ensures var t := "clear_board";
      !IsPonderingText(t) && !IsEndstateText(t) && !IsPeekText(t) && IsChangerText(t) && ';' !in t
  {
    var t := "clear_board";
    FirstCharRules(t, "lz-analyze");
    FirstCharRules(t, "kata-analyze");
    FirstCharRules(t, "endstate_map");
    forall i | 0 <= i <= |t| ensures !OccursAt(t, "play", i) {
      if i + 4 <= |t| {
        assert t[i..i + 4][0] == t[i];
      }
    }
    assert OccursAt(t, "clear_board", 0);
    ContainsIff(t, "clear_board");
  }

  /** `play <color> <move>` is a board change and neither analysis, endstate nor (for a move without `undo` in it) a peek. */
  lemma PlayTextKind(p: Play)
    requires !Contains(p.move, "undo")
    ensures var t := OpText(PlayMove(p));
      !IsPonderingText(t) && !IsEndstateText(t) && !IsPeekText(t) && IsChangerText(t)
  {
    var t := OpText(PlayMove(p));
    assert t[0] == 'p';
    FirstCharRules(t, "lz-analyze");
    FirstCharRules(t, "kata-analyze");
    FirstCharRules(t, "endstate_map");
    assert OccursAt(t, "play", 0);
    ContainsIff(t, "play");
    PlayTextNotPeek(p);
  }

  lemma PlayTextNotPeek(p: Play)
    requires !Contains(p.move, "undo")
    ensures !IsPeekText(OpText(PlayMove(p)))
  {
    var t := OpText(PlayMove(p));
    if IsPeekText(t) {
      var i :| 0 <= i <= |t| && OccursAt(t, "play", i) && UndoAhead(t, i + 4);
      UndoAheadMeaning(t, i + 4);
      var j :| i + 4 <= j && OccursAt(t, "undo", j) && OneLine(t, i + 4, j);
      PlayTextUndo(p, j);
      ContainsIff(p.move, "undo");
    }
  }

  /** A text whose first character differs from a prefix's does not start with it. */
  lemma FirstCharRules(t: string, prefix: string)
    requires |prefix| > 0 && (t == [] || t[0] != prefix[0])
    ensures !StartsWith(t, prefix)
  {
    assert |prefix| <= |t| ==> t[..|prefix|][0] == t[0];
  }


  // ---------------------------------------------------------------------------
  // endstate rows

  /** `parse_endstate_line`: nothing for the closing `endstate sum` line, else the row in thousandths. */
  function ParseEndstateLine(line: string): (r: Option<seq<int>>)
    ensures r.None? <==> Contains(line, "endstate sum")
    ensures r.Some? ==> |r.value| == |SplitWords(line)|
    ensures r.Some? ==> forall i :: 0 <= i < |r.value| ==> r.value[i] == ToI(SplitWords(line)[i])
  {
    if Contains(line, "endstate sum") then None
    else
      var ws := SplitWords(line);
      Some(seq(|ws|, i requires 0 <= i < |ws| => ToI(ws[i])))
  }

  // ---------------------------------------------------------------------------
  // suggestion lines

  /**
   * One parsed suggestion: the key/value fields before `pv`, the principal variation, and
   * the integer fields `visits` and `order` (0 when absent, as `to_i(undefined)` is).
   */
  datatype Suggestion = Suggestion(fields: map<string, Option<string>>, pv: seq<string>, visits: int, order: int)

  /** `to_i(h[key])`. */
  function IntField(h: map<string, Option<string>>, key: string): int
  {
    if key in h && h[key].Some? then ToI(h[key].value) else 0
  }

  /** `suggest_parser` without the floating-point fields: none when there is no non-empty text after the first `pv`. */
  function SuggestParser(s: string): (r: Option<Suggestion>)
    ensures r.None? <==> |SplitOn(s, "pv")| < 2 || SplitOn(s, "pv")[1] == ""
    ensures r.Some? ==> var parts := SplitOn(s, "pv");
      && r.value.fields == PairsToMap(SplitWords(parts[0]))
      && r.value.pv == SplitWords(parts[1])
    ensures r.Some? ==> r.value.visits == IntField(r.value.fields, "visits") && r.value.order == IntField(r.value.fields, "order")
  {
    var parts := SplitOn(s, "pv");
    if |parts| < 2 || parts[1] == "" then None
    else
      var h := PairsToMap(SplitWords(parts[0]));
      Some(Suggestion(h, SplitWords(parts[1]), IntField(h, "visits"), IntField(h, "order")))
  }

  /** `s` without trailing white space. */
  function DropTrailingSpace(s: string): (t: string)
    ensures |t| <= |s| && t == s[..|t|]
    ensures t == [] || !IsSpace(t[|t| - 1])
    ensures forall i :: |t| <= i < |s| ==> IsSpace(s[i])
    decreases |s|
  {
    if s != [] && IsSpace(s[|s| - 1]) then DropTrailingSpace(s[..|s| - 1]) else s
  }

  /** The text before the first `ownership`, without the white space right before it (the first piece of the split on white space around `ownership`). */
  function InfoPart(line: string): string
  {
    match IndexOf(line, "ownership")
    case None => line
    case Some(o) => DropTrailingSpace(line[..o])
  }

  /** The suggestions of the pieces, dropping those that do not parse (`map(suggest_parser).filter(truep)`). */
  function ParseAll(pieces: seq<string>): (r: seq<Suggestion>)
    ensures |r| <= |pieces|
    ensures forall j :: 0 <= j < |r| ==> exists i :: 0 <= i < |pieces| && SuggestParser(pieces[i]) == Some(r[j])
    ensures (forall i :: 0 <= i < |pieces| ==> SuggestParser(pieces[i]).Some?) ==> |r| == |pieces|
    decreases |pieces|
  {
    if pieces == [] then []
    else
      var rest := ParseAll(pieces[1..]);
      assert forall i :: 0 <= i < |pieces[1..]| ==> pieces[1..][i] == pieces[i + 1];
      match SuggestParser(pieces[0])
      case None => rest
      case Some(h) => [h] + rest
  }

  /** `map(suggest_parser).filter(truep)` distributes over concatenation of the pieces. */
  lemma {:induction false} ParseAllAppend(a: seq<string>, b: seq<string>)
    ensures ParseAll(a + b) == ParseAll(a) + ParseAll(b)
    decreases |a|
  {
    if a == [] {
      assert a + b == b;
    } else {
      assert (a + b)[0] == a[0];
      assert (a + b)[1..] == a[1..] + b;
      ParseAllAppend(a[1..], b);
    }
  }

  /** One piece gives its parse, or nothing when it does not parse. */
  lemma ParseAllOne(p: string)
    ensures ParseAll([p]) == if SuggestParser(p).Some? then [SuggestParser(p).value] else []
  {
    assert [p][1..] == [];
  }

  /** Sorted by ascending `order`. */
  predicate SortedByOrder(s: seq<Suggestion>)
  {
    forall i, j :: 0 <= i < j < |s| ==> s[i].order <= s[j].order
  }

  /** Insert `x` after every element whose order is not larger (keeps equal keys in arrival order). */
  function InsertByOrder(t: seq<Suggestion>, x: Suggestion): (r: seq<Suggestion>)
    ensures multiset(r) == multiset(t) + multiset{x}
    ensures SortedByOrder(t) ==> SortedByOrder(r)
    decreases |t|
  {
    if t == [] || t[|t| - 1].order <= x.order then t + [x]
    else
      var r := InsertByOrder(t[..|t| - 1], x);
      assert t == t[..|t| - 1] + [t[|t| - 1]];
      InsertBelowLast(t[..|t| - 1], t[|t| - 1], x, r);
      r + [t[|t| - 1]]
  }

  /** Inserting below a last element that is above `x` keeps that element last. */
  lemma InsertBelowLast(init: seq<Suggestion>, last: Suggestion, x: Suggestion, r: seq<Suggestion>)
    requires multiset(r) == multiset(init) + multiset{x}
    requires SortedByOrder(init) ==> SortedByOrder(r)
    requires x.order < last.order
    ensures multiset(r + [last]) == multiset(init + [last]) + multiset{x}
    ensures SortedByOrder(init + [last]) ==> SortedByOrder(r + [last])
  {
    InsertedLast(init, x, r, last);
    if SortedByOrder(init + [last]) {
      var t := init + [last];
      assert init == t[..|t| - 1];
      assert AllAtMost(init, last.order);
      assert SortedByOrder(r);
    }
  }

  predicate AllAtMost(t: seq<Suggestion>, o: int)
  {
    forall i :: 0 <= i < |t| ==> t[i].order <= o
  }

  /** Every element of the insertion result is at most `y` when `y` was above `x` and all of `t`. */
  lemma InsertedLast(t: seq<Suggestion>, x: Suggestion, r: seq<Suggestion>, y: Suggestion)
    requires multiset(r) == multiset(t) + multiset{x}
    requires x.order < y.order
    ensures AllAtMost(t, y.order) ==> AllAtMost(r, y.order)
  {
    if AllAtMost(t, y.order) {
      forall i | 0 <= i < |r| ensures r[i].order <= y.order {
        assert r[i] in multiset(r);
        if r[i] != x {
          assert r[i] in multiset(t);
          assert r[i] in t;
        }
      }
    }
  }

  /** `.sort((a, b) => a.order - b.order)` as a stable insertion sort. */
  function SortByOrder(s: seq<Suggestion>): (r: seq<Suggestion>)
    ensures SortedByOrder(r)
    ensures multiset(r) == multiset(s)
    decreases |s|
  {
    if s == [] then []
    else
      assert s == s[..|s| - 1] + [s[|s| - 1]];
      InsertByOrder(SortByOrder(s[..|s| - 1]), s[|s| - 1])
  }

  /** The suggestions whose `order` is `o`, in list order. */
  function WithOrder(s: seq<Suggestion>, o: int): seq<Suggestion>
    decreases |s|
  {
    if s == [] then []
    else WithOrder(s[..|s| - 1], o) + (if s[|s| - 1].order == o then [s[|s| - 1]] else [])
  }

  /** Inserting `x` puts it after every element of the same order and moves no other element of that order. */
  lemma {:induction false} InsertByOrderStable(t: seq<Suggestion>, x: Suggestion, o: int)
    ensures WithOrder(InsertByOrder(t, x), o) == WithOrder(t, o) + (if x.order == o then [x] else [])
    decreases |t|
  {
    if t == [] || t[|t| - 1].order <= x.order {
      assert InsertByOrder(t, x) == t + [x];
      WithOrderSnoc(t, x, o);
    } else {
      var r := InsertByOrder(t[..|t| - 1], x);
      InsertByOrderStable(t[..|t| - 1], x, o);
      InsertBelowStable(t, x, r, o);
      assert InsertByOrder(t, x) == r + [t[|t| - 1]];
    }
  }

  /** The step of InsertByOrderStable where `x` goes below the last element. */
  lemma InsertBelowStable(t: seq<Suggestion>, x: Suggestion, r: seq<Suggestion>, o: int)
    requires t != [] && x.order < t[|t| - 1].order
    requires WithOrder(r, o) == WithOrder(t[..|t| - 1], o) + (if x.order == o then [x] else [])
    ensures WithOrder(r + [t[|t| - 1]], o) == WithOrder(t, o) + (if x.order == o then [x] else [])
  {
    var last := t[|t| - 1];
    var w := WithOrder(t[..|t| - 1], o);
    assert WithOrder(t, o) == w + (if last.order == o then [last] else []);
    WithOrderSnoc(r, last, o);
    if x.order == o {
      assert last.order != o;
      assert WithOrder(r, o) + [] == WithOrder(r, o);
      assert w + [] == w;
    } else {
      assert WithOrder(r, o) == w + [] == w;
      assert WithOrder(t, o) + [] == WithOrder(t, o);
    }
  }

  lemma WithOrderSnoc(t: seq<Suggestion>, x: Suggestion, o: int)
    ensures WithOrder(t + [x], o) == WithOrder(t, o) + (if x.order == o then [x] else [])
  {
    assert (t + [x])[..|t|] == t;
  }

  /** The sort is stable: the suggestions of any one `order` keep their input order. */
  lemma {:induction false} SortByOrderStable(s: seq<Suggestion>, o: int)
    ensures WithOrder(SortByOrder(s), o) == WithOrder(s, o)
    decreases |s|
  {
    if s != [] {
      SortByOrderStable(s[..|s| - 1], o);
      InsertByOrderStable(SortByOrder(s[..|s| - 1]), s[|s| - 1], o);
    }
  }

  /** Total visits of the suggestions. */
  function TotalVisits(s: seq<Suggestion>): int
  {
    if s == [] then 0 else s[0].visits + TotalVisits(s[1..])
  }

  // ---------------------------------------------------------------------------
  // add_order

  /** In a stable sort by descending key, entry `j` comes before entry `i`. */
  predicate Before(keys: seq<int>, i: nat, j: nat)
    requires i < |keys| && j < |keys|
  {
    keys[j] > keys[i] || (keys[j] == keys[i] && j < i)
  }

  /** How many of the first `n` entries come before entry `i`. */
  function CountBefore(keys: seq<int>, i: nat, n: nat): (c: nat)
    requires i < |keys| && n <= |keys|
    ensures c <= n
  {
    if n == 0 then 0 else CountBefore(keys, i, n - 1) + (if Before(keys, i, n - 1) then 1 else 0)
  }

  /**
   * `add_order(key, order_key)`: the index each entry gets when a copy is stably sorted
   * by descending key and numbered from 0.
   */
  function Ranks(keys: seq<int>): (r: seq<nat>)
    ensures |r| == |keys|
  {
    seq(|keys|, i requires 0 <= i < |keys| => CountBefore(keys, i, |keys|))
  }

  lemma {:induction false} CountBeforeMono(keys: seq<int>, i: nat, j: nat, n: nat)
    requires i < |keys| && j < |keys| && n <= |keys|
    requires Before(keys, i, j)
    ensures CountBefore(keys, j, n) + (if j < n then 1 else 0) <= CountBefore(keys, i, n)
  {
    if n > 0 {
      CountBeforeMono(keys, i, j, n - 1);
    }
  }

  lemma {:induction false} CountBeforeSelf(keys: seq<int>, i: nat, n: nat)
    requires i < |keys| && n <= |keys|
    ensures CountBefore(keys, i, n) + (if i < n then 1 else 0) <= n
  {
    if n > 0 {
      CountBeforeSelf(keys, i, n - 1);
    }
  }

  /**
   * The ranks number the entries 0 .. n-1 without repetition, a larger key gets a smaller
   * rank, and equal keys keep their order.
   */
  lemma RanksMeaning(keys: seq<int>)
    ensures var r := Ranks(keys);
      && (forall i :: 0 <= i < |keys| ==> r[i] < |keys|)
      && (forall i, j :: 0 <= i < |keys| && 0 <= j < |keys| ==> (Before(keys, i, j) <==> r[j] < r[i]))
      && (forall i, j :: 0 <= i < j < |keys| ==> r[i] != r[j])
  {
    var r := Ranks(keys);
    forall i | 0 <= i < |keys| ensures r[i] < |keys| {
      CountBeforeSelf(keys, i, |keys|);
    }
    forall i, j | 0 <= i < |keys| && 0 <= j < |keys| ensures Before(keys, i, j) <==> r[j] < r[i] {
      if Before(keys, i, j) {
        CountBeforeMono(keys, i, j, |keys|);
      } else if i != j {
        assert Before(keys, j, i);
        CountBeforeMono(keys, j, i, |keys|);
      }
    }
  }

  /** What `suggest_reader` hands over: the sorted suggestions, their total visits and visit ranks. */
  datatype SuggestReport = SuggestReport(suggest: seq<Suggestion>, visits: int, visitsOrder: seq<nat>)

  function VisitsOf(s: seq<Suggestion>): (keys: seq<int>)
    ensures |keys| == |s| && forall i :: 0 <= i < |s| ==> keys[i] == s[i].visits
  {
    seq(|s|, i requires 0 <= i < |s| => s[i].visits)
  }

  /** The report for parsed suggestions: sorted by `order`, total visits, visit ranks. */
  function Report(parsed: seq<Suggestion>): SuggestReport
  {
    var suggest := SortByOrder(parsed);
    SuggestReport(suggest, TotalVisits(suggest), Ranks(VisitsOf(suggest)))
  }

  /** `suggest_reader` on a line of analysis output, without the floating-point figures. */
  function SuggestReader(line: string): SuggestReport
  {
    Report(ParseAll(SplitOn(InfoPart(line), "info")[1..]))
  }

  /**
   * The report holds exactly the parsed suggestions, sorted by `order`, their total visits,
   * and visit ranks numbering them 0 .. n-1 by descending visits, ties in list order.
   */
  lemma ReportMeaning(parsed: seq<Suggestion>)
    ensures var r := Report(parsed);
      && SortedByOrder(r.suggest) && multiset(r.suggest) == multiset(parsed)
      && r.visits == TotalVisits(r.suggest)
      && |r.visitsOrder| == |r.suggest|
      && (forall i :: 0 <= i < |r.suggest| ==> r.visitsOrder[i] < |r.suggest|)
      && (forall i, j :: 0 <= i < |r.suggest| && 0 <= j < |r.suggest| ==>
            (Before(VisitsOf(r.suggest), i, j) <==> r.visitsOrder[j] < r.visitsOrder[i]))
  {
    RanksMeaning(VisitsOf(Report(parsed).suggest));
  }

  // ---------------------------------------------------------------------------
  // "NN eval=" in standard error

  predicate IsEvalChar(c: char) { IsDigit(c) || c == '.' }

  function EvalRunLength(s: string): (n: nat)
    ensures n <= |s| && forall i :: 0 <= i < n ==> IsEvalChar(s[i])
    ensures n < |s| ==> !IsEvalChar(s[n])
    decreases |s|
  {
    if s == [] || !IsEvalChar(s[0]) then 0 else 1 + EvalRunLength(s[1..])
  }

  /** A match of `/NN eval=[0-9.]/` starts at index `i`. */
  predicate EvalAt(line: string, i: nat)
  {
    i + 8 < |line| && OccursAt(line, "NN eval=", i) && IsEvalChar(line[i + 8])
  }

  /** `v` follows `NN eval=` at index `i` and the run of eval characters ends with it. */
  predicate EvalCaptureAt(line: string, i: nat, v: string)
  {
    OccursAt(line, "NN eval=" + v, i) && (i + 8 + |v| == |line| || !IsEvalChar(line[i + 8 + |v|]))
  }

  /** The greedy capture of a match at `k`. */
  function EvalCapture(line: string, k: nat): (v: string)
    requires EvalAt(line, k)
    ensures |v| > 0 && (forall i :: 0 <= i < |v| ==> IsEvalChar(v[i])) && EvalCaptureAt(line, k, v)
  {
    var rest := line[k + 8..];
    var n := EvalRunLength(rest);
    assert line[k..k + 8 + n] == line[k..k + 8] + rest[..n];
    rest[..n]
  }

  /**
   * `/NN eval=([0-9.]+)/` searched from index `k`: None exactly when no match starts at or after
   * `k`; otherwise the greedy capture of the first match, a non-empty run of eval characters.
   */
  function NnEvalFrom(line: string, k: nat): (r: Option<string>)
    ensures r.None? <==> forall i: nat :: k <= i ==> !EvalAt(line, i)
    ensures r.Some? ==> |r.value| > 0 && forall i :: 0 <= i < |r.value| ==> IsEvalChar(r.value[i])
    ensures r.Some? ==> exists i: nat :: k <= i && EvalAt(line, i) && EvalCaptureAt(line, i, r.value)
                                      && forall j: nat :: k <= j < i ==> !EvalAt(line, j)
    decreases |line| - k
  {
    if k + 8 >= |line| then None
    else if OccursAt(line, "NN eval=", k) && IsEvalChar(line[k + 8]) then
      var v := EvalCapture(line, k);
      Some(v)
    else
      assert !EvalAt(line, k);
      NnEvalFrom(line, k + 1)
  }

  function NnEval(line: string): Option<string>
  {
    NnEvalFrom(line, 0)
  }
}
