/**
 * The engine session of src/engine.js (`create_leelaz`) as a state and its transitions.
 * A state holds what the closure keeps: the command queue, the request and reply ids,
 * the reply handlers, the probed features, the engine's copy of the board, the reader mode
 * for standard error and the analysis flag. Writes to the engine's standard input are
 * appended to `sent`; calls to the owner's handlers are appended to `events`.
 */
module EngineSpec {
  import opened Wrappers
  import opened JsString
  import opened Util
  import opened EngineCommands

  // ---------------------------------------------------------------------------
  // state

  /** A feature probe: the feature name and the command that tests it. */
  datatype Rule = Rule(feature: string, cmd: string)

  /** The probes `on_ready` runs, in order. */
  const PROBE_RULES: seq<Rule> := [
    Rule("minmoves", "lz-analyze interval 1 minmoves 30"),
    Rule("endstate", "endstate_map"),
    Rule("kata-analyze", "kata-analyze interval 1")]

  /** A one-shot reply handler; the only ones registered are the feature probes of `check_supported`. */
  datatype Probe = Probe(feature: string, rest: seq<Rule>)

  /** `current_reader`: the main reader or the endstate block reader. */
  datatype Reader = MainReader | EndstateReader

  /** Calls the session makes to its owner's handlers. */
  datatype Event =
    | Ready
    | EndstateMap(rows: seq<seq<int>>, moveCount: nat)
    | Suggest(report: SuggestReport)
    | EngineError
    | PeekResult(value: string)

  /**
   * The arguments of `start` that the modelled code reads: komi (as its text), the analysis
   * interval, the minimum number of suggested moves, whether to wait for the engine's
   * ready message, and whether endstate and suggestion handlers are present.
   */
  datatype Config = Config(
    komi: string, analyzeInterval: int, minimumSuggestedMoves: int,
    waitForStartup: bool, endstateHandler: bool, suggestHandler: bool)

  datatype State = State(
    config: Config,
    isReady: bool,
    queue: seq<Entry>,
    lastCommandId: int,
    lastResponseId: int,
    onResponse: map<int, Probe>,
    sent: seq<string>,
    pondering: bool,
    moveCount: nat,
    bturn: bool,
    prevHistory: seq<Play>,
    supported: map<string, bool>,
    reader: Reader,
    endstateBuf: seq<seq<int>>,
    peekPending: bool,
    events: seq<Event>)

  /** Placeholder arguments before the first `start`, which replaces them. */
  const NO_ARGS: Config := Config("", 0, 0, true, false, false)

  /**
   * A fresh session before `start`: pondering on, black to move, no probes answered and the
   * main reader. The queue and the two ids, which the source leaves undefined until `start`,
   * are taken as the empty queue and the ids -1 and -2 that `start` gives them.
   */
  function Initial(): (st: State)
    ensures !UpToDate(st) && st.queue == [] && st.sent == [] && st.events == []
  {
    State(NO_ARGS, false, [], -1, -2, map[], [], true, 0, true, [], map[], MainReader, [], false, [])
  }

  /** The part of a session that dispatching leaves alone. */
  datatype Setting = Setting(
    config: Config, isReady: bool, onResponse: map<int, Probe>, lastResponseId: int,
    pondering: bool, prevHistory: seq<Play>, supported: map<string, bool>, reader: Reader,
    endstateBuf: seq<seq<int>>, peekPending: bool, events: seq<Event>)

  function SettingOf(st: State): Setting
  {
    Setting(st.config, st.isReady, st.onResponse, st.lastResponseId, st.pondering,
            st.prevHistory, st.supported, st.reader, st.endstateBuf, st.peekPending, st.events)
  }

  /** Everything but the queue, the request counter, the log of writes and the board marker fields. */
  predicate SameSetting(a: State, b: State)
  {
    SettingOf(a) == SettingOf(b)
  }

  /** `up_to_date_response()`: every request sent so far has been answered. */
  predicate UpToDate(st: State)
  {
    st.lastResponseId >= st.lastCommandId
  }

  /** `is_supported(feature)`: probed and answered with success. */
  predicate IsSupported(st: State, feature: string)
  {
    feature in st.supported && st.supported[feature]
  }

  // ---------------------------------------------------------------------------
  // sending

  /** The requests for `cmds` with ids from `first` up. */
  function Requests(first: int, cmds: seq<string>): seq<string>
  {
    seq(|cmds|, i requires 0 <= i < |cmds| => FormatCommand(first + i, cmds[i]))
  }

  lemma RequestsCons(first: int, cmds: seq<string>)
    requires cmds != []
    ensures Requests(first, cmds) == [FormatCommand(first, cmds[0])] + Requests(first + 1, cmds[1..])
  {
    var a := Requests(first, cmds);
    var b := [FormatCommand(first, cmds[0])] + Requests(first + 1, cmds[1..]);
    assert |a| == |b|;
    forall i | 0 <= i < |a| ensures a[i] == b[i] {
      if i > 0 {
        assert b[i] == Requests(first + 1, cmds[1..])[i - 1];
        assert first + 1 + (i - 1) == first + i;
      }
    }
  }

  /** `try_send_to_leelaz(cmd, on_response)` for a command: the next id, the write, the handler. */
  function TrySend(st: State, cmd: string, onResponse: Option<Probe>): (r: State)
    ensures r.lastCommandId == st.lastCommandId + 1 && r.sent == st.sent + [FormatCommand(r.lastCommandId, cmd)]
    ensures r.queue == st.queue && r.lastResponseId == st.lastResponseId
    ensures onResponse.None? ==> SameSetting(st, r)
    ensures onResponse.Some? ==> r.onResponse == st.onResponse[r.lastCommandId := onResponse.value]
  {
    var id := st.lastCommandId + 1;
    st.(lastCommandId := id, sent := st.sent + [FormatCommand(id, cmd)],
        onResponse := if onResponse.Some? then st.onResponse[id := onResponse.value] else st.onResponse)
  }

  /** The parts of one queue entry sent back to back. */
  function SendAll(st: State, cmds: seq<string>): (r: State)
    ensures SameSetting(st, r) && r.queue == st.queue
    ensures r.moveCount == st.moveCount && r.bturn == st.bturn
    ensures r.lastCommandId == st.lastCommandId + |cmds|
    decreases |cmds|
  {
    if cmds == [] then st else SendAll(TrySend(st, cmds[0], None), cmds[1..])
  }

  /** Sending the parts takes the next ids in order and writes one request per part. */
  lemma {:induction false} SendAllRequests(st: State, cmds: seq<string>)
    ensures SendAll(st, cmds).sent == st.sent + Requests(st.lastCommandId + 1, cmds)
    decreases |cmds|
  {
    if cmds == [] {
      assert st.sent + Requests(st.lastCommandId + 1, cmds) == st.sent;
    } else {
      var s1 := TrySend(st, cmds[0], None);
      var x := FormatCommand(st.lastCommandId + 1, cmds[0]);
      assert s1.sent == st.sent + [x];
      assert SendAll(st, cmds) == SendAll(s1, cmds[1..]);
      SendAllRequests(s1, cmds[1..]);
      RequestsCons(st.lastCommandId + 1, cmds);
      var rest := Requests(st.lastCommandId + 2, cmds[1..]);
      assert s1.lastCommandId + 1 == st.lastCommandId + 2;
      AppendAssoc(st.sent, [x], rest);
    }
  }

  /**
   * `send_from_queue`: while every request is answered, take the head; a marker sets the
   * move count and turn and dispatch goes on; a command is split at `;` and its parts go out.
   */
  function Dispatch(st: State): (r: State)
    ensures SameSetting(st, r)
    ensures r.lastCommandId >= st.lastCommandId
    decreases |st.queue|
  {
    if st.queue == [] || !UpToDate(st) then st
    else
      var s := PopHead(st);
      if st.queue[0].Marker? then Dispatch(s) else s
  }

  /** Dispatch only removes entries from the front of the queue. */
  lemma {:induction false} DispatchTakesFromFront(st: State)
    ensures var r := Dispatch(st);
      |r.queue| <= |st.queue| && r.queue == st.queue[|st.queue| - |r.queue|..]
    decreases |st.queue|
  {
    if st.queue != [] && UpToDate(st) {
      var s := PopHead(st);
      var q, t := st.queue, s.queue;
      if q[0].Marker? {
        var r := Dispatch(s);
        assert Dispatch(st) == r;
        DispatchTakesFromFront(s);
        TailSuffix(q, t, r.queue);
      } else {
        assert Dispatch(st) == s;
        TailSuffix(q, t, t);
      }
    } else {
      assert st.queue[|st.queue| - |st.queue|..] == st.queue;
    }
  }

  /**
   * One step of `send_from_queue`: a marker sets the board fields, a command is split at
   * `;` and its parts are sent.
   */
  function PopHead(st: State): (r: State)
    requires st.queue != []
    ensures SameSetting(st, r) && r.queue == st.queue[1..]
    ensures r.lastCommandId >= st.lastCommandId
  {
    match st.queue[0]
    case Marker(mc, bt) => st.(queue := st.queue[1..], moveCount := mc, bturn := bt)
    case Cmd(text) => SendAll(st.(queue := st.queue[1..]), Split(text, ';'))
  }

  /** A suffix of a queue's tail is a suffix of the queue. */
  lemma TailSuffix<T>(q: seq<T>, t: seq<T>, r: seq<T>)
    requires q != [] && t == q[1..] && |r| <= |t| && r == t[|t| - |r|..]
    ensures r == q[|q| - |r|..]
  {
    assert t[|t| - |r|..] == q[|q| - |r|..];
  }

  /** Nothing happens while the queue is empty or a request is unanswered. */
  lemma DispatchGated(st: State)
    requires st.queue == [] || !UpToDate(st)
    ensures Dispatch(st) == st
  {
  }

  /**
   * Otherwise a command at the head is removed and its `;`-separated parts are sent in
   * order with consecutive ids; nothing else is dispatched after it.
   */
  lemma DispatchCommand(st: State, text: string)
    requires st.queue != [] && UpToDate(st) && st.queue[0] == Cmd(text)
    ensures var parts := Split(text, ';'); var r := Dispatch(st);
      && SameSetting(st, r) && r.queue == st.queue[1..]
      && r.moveCount == st.moveCount && r.bturn == st.bturn
      && r.lastCommandId == st.lastCommandId + |parts|
      && r.sent == st.sent + Requests(st.lastCommandId + 1, parts)
  {
    SendAllRequests(st.(queue := st.queue[1..]), Split(text, ';'));
  }

  /** A marker at the head writes nothing: it sets the move count and turn and dispatch continues. */
  lemma DispatchMarker(st: State, mc: nat, bt: bool)
    requires st.queue != [] && UpToDate(st) && st.queue[0] == Marker(mc, bt)
    ensures Dispatch(st) == Dispatch(st.(queue := st.queue[1..], moveCount := mc, bturn := bt))
  {
  }

  /** Once a command is out, the gate is shut until its reply (unless replies ran ahead of requests). */
  lemma DispatchShutsGate(st: State, text: string)
    requires st.queue != [] && UpToDate(st) && st.queue[0] == Cmd(text)
    requires st.lastResponseId <= st.lastCommandId
    ensures !UpToDate(Dispatch(st))
  {
    DispatchCommand(st, text);
  }

  /** `send_to_queue(s)`: prune, push, dispatch. */
  function SendToQueue(st: State, e: Entry): (r: State)
    ensures SameSetting(st, r) && r.lastCommandId >= st.lastCommandId
  {
    Dispatch(st.(queue := Pruned(st.queue, e)))
  }

  /** While a request is unanswered, `send_to_queue(s)` only prunes and pushes. */
  lemma SendToQueueWhileBusy(st: State, e: Entry)
    requires !UpToDate(st)
    ensures SendToQueue(st, e) == st.(queue := Pruned(st.queue, e))
  {
  }

  /** `leelaz(s)`. */
  function Leelaz(st: State, cmd: string): (r: State)
    ensures SameSetting(st, r) && r.lastCommandId >= st.lastCommandId
  {
    SendToQueue(st, Cmd(cmd))
  }

  // ---------------------------------------------------------------------------
  // analysis and board

  /** The analysis command `start_analysis` would queue, given the probed features and the arguments. */
  function AnalysisCommand(supported: map<string, bool>, config: Config): string
  {
    var analyzer := if "kata-analyze" in supported && supported["kata-analyze"]
                    then "kata-analyze ownership true" else "lz-analyze";
    if "minmoves" in supported && supported["minmoves"] then
      analyzer + " interval " + IntToString(config.analyzeInterval)
        + " minmoves " + IntToString(config.minimumSuggestedMoves)
    else analyzer + " " + IntToString(config.analyzeInterval)
  }

  /**
   * The analysis command is what the pruning rules take for analysis: any later command
   * removes it from the queue. It starts `kata-analyze` exactly when KataGo analysis was probed.
   */
  lemma AnalysisCommandKind(supported: map<string, bool>, config: Config)
    ensures var t := AnalysisCommand(supported, config);
      && IsPonderingText(t)
      && (StartsWith(t, "kata-analyze") <==> "kata-analyze" in supported && supported["kata-analyze"])
  {
    var t := AnalysisCommand(supported, config);
    var kata := "kata-analyze" in supported && supported["kata-analyze"];
    var analyzer := if kata then "kata-analyze ownership true" else "lz-analyze";
    var p := if kata then "kata-analyze" else "lz-analyze";
    assert analyzer[..|p|] == p;
    assert t == analyzer + t[|analyzer|..];
    assert t[..|p|] == p;
    if !kata {
      FirstCharRules(t, "kata-analyze");
    }
  }

  /** The analysis command goes out as one part. */
  lemma AnalysisCommandNoSemicolon(supported: map<string, bool>, config: Config)
    ensures ';' !in AnalysisCommand(supported, config)
  {
    IntTextNoSemicolon(config.analyzeInterval);
    IntTextNoSemicolon(config.minimumSuggestedMoves);
    assert ';' !in "kata-analyze ownership true" && ';' !in "lz-analyze";
    assert ';' !in " interval " && ';' !in " minmoves " && ';' !in " ";
  }

  lemma IntTextNoSemicolon(i: int)
    ensures ';' !in IntToString(i)
  {
    assert ';' !in "-";
  }

  /** `start_analysis()`: queue the analysis command while pondering. */
  function StartAnalysis(st: State): (r: State)
    ensures SameSetting(st, r) && r.lastCommandId >= st.lastCommandId
  {
    if st.pondering then Leelaz(st, AnalysisCommand(st.supported, st.config)) else st
  }

  /** `endstate()`: ask for the endstate map when there is a handler and the engine has the feature. */
  function Endstate(st: State): (r: State)
    ensures SameSetting(st, r) && r.lastCommandId >= st.lastCommandId
  {
    if st.config.endstateHandler && IsSupported(st, "endstate") then Leelaz(st, "endstate_map") else st
  }

  /** `update()`, taken as the immediate `update_now()`. */
  function Update(st: State): (r: State)
    ensures SameSetting(st, r) && r.lastCommandId >= st.lastCommandId
  {
    StartAnalysis(Endstate(st))
  }

  /** `set_pondering(bool)`: on a change, start analysis or stop it with `name`. */
  function SetPondering(st: State, b: bool): (r: State)
    ensures r.pondering == b
    ensures b == st.pondering ==> r == st
    ensures SameSetting(st.(pondering := b), r)
  {
    if b == st.pondering then st
    else
      var s1 := st.(pondering := b);
      if b then StartAnalysis(s1) else Leelaz(s1, "name")
  }

  /**
   * While a request is unanswered, a change of `set_pondering` only queues: the analysis
   * command when pondering starts, `name` when it stops; nothing is written.
   */
  lemma SetPonderingWhileBusy(st: State, b: bool)
    requires !UpToDate(st) && b != st.pondering
    ensures var c := if b then Cmd(AnalysisCommand(st.supported, st.config)) else Cmd("name");
      var r := SetPondering(st, b);
      r.sent == st.sent && !UpToDate(r) && r.queue == Pruned(st.queue, c)
  {
    var s1 := st.(pondering := b);
    if b {
      SendToQueueWhileBusy(s1, Cmd(AnalysisCommand(st.supported, st.config)));
    } else {
      SendToQueueWhileBusy(s1, Cmd("name"));
    }
  }

  /**
   * With every request answered and nothing queued, a change of `set_pondering` writes the
   * analysis command or `name` at once, with the next id.
   */
  lemma SetPonderingIdle(st: State, b: bool)
    requires UpToDate(st) && st.queue == [] && b != st.pondering
    ensures var c := if b then AnalysisCommand(st.supported, st.config) else "name";
      var r := SetPondering(st, b);
      r.sent == st.sent + [FormatCommand(st.lastCommandId + 1, c)] && r.queue == []
  {
    var s1 := st.(pondering := b);
    if b {
      AnalysisCommandNoSemicolon(st.supported, st.config);
      LeelazIdle(s1, AnalysisCommand(st.supported, st.config));
    } else {
      assert "name"[0] != ';' && "name"[1] != ';' && "name"[2] != ';' && "name"[3] != ';';
      LeelazIdle(s1, "name");
    }
  }

  /** `clear_leelaz_board()`. */
  function ClearBoard(st: State): (r: State)
    ensures SameSetting(st.(prevHistory := []), r) && r.lastCommandId >= st.lastCommandId
  {
    Update(Leelaz(st, "clear_board").(prevHistory := []))
  }

  /** The marker for a history: its length, and black to move unless the last move was black's. */
  function MarkerFor(history: seq<Play>): Entry
  {
    Marker(|history|, if history == [] then true else !history[|history| - 1].isBlack)
  }

  /** `update_move_count(history)`. */
  function UpdateMoveCount(st: State, history: seq<Play>): (r: State)
    ensures SameSetting(st, r) && r.lastCommandId >= st.lastCommandId
  {
    Update(SendToQueue(st, MarkerFor(history)))
  }

  /** The board commands, each through `leelaz`. */
  function QueueOps(st: State, ops: seq<BoardOp>): (r: State)
    ensures SameSetting(st, r) && r.lastCommandId >= st.lastCommandId
    decreases |ops|
  {
    if ops == [] then st else QueueOps(Leelaz(st, OpText(ops[0])), ops[1..])
  }

  /**
   * `set_board(history)`: an empty history clears the board; otherwise the undos and plays
   * of the diff against the engine's board, a marker when anything changed, and the engine's
   * board becomes `history`.
   */
  function SetBoard(st: State, history: seq<Play>): (r: State)
    ensures r.prevHistory == history
  {
    if history == [] then UpdateMoveCount(ClearBoard(st), [])
    else SyncBoard(st, history).(prevHistory := history)
  }

  /** The diff's commands, then a marker when anything changed. */
  function SyncBoard(st: State, history: seq<Play>): (r: State)
    ensures SameSetting(st, r) && r.lastCommandId >= st.lastCommandId
  {
    var k := CommonHeaderLength(history, st.prevHistory);
    var s1 := QueueOps(st, BoardDiff(history, st.prevHistory));
    if |st.prevHistory| - k > 0 || |history| - k > 0 then UpdateMoveCount(s1, history) else s1
  }

  /** Only the stepping used by Session.SyncBoard: the commands of the two loops, one after the other. */
  lemma SyncBoardSteps(st: State, history: seq<Play>, back: nat, rest: seq<Play>)
    requires back == |st.prevHistory| - CommonHeaderLength(history, st.prevHistory)
    requires rest == history[CommonHeaderLength(history, st.prevHistory)..]
    ensures var s1 := QueueOps(QueueOps(st, Undos(back)), PlayAll(rest));
      SyncBoard(st, history) == if back > 0 || |rest| > 0 then UpdateMoveCount(s1, history) else s1
  {
    QueueOpsAppend(st, Undos(back), PlayAll(rest));
  }

  lemma QueueOpsSnoc(st: State, ops: seq<BoardOp>, op: BoardOp)
    ensures QueueOps(st, ops + [op]) == Leelaz(QueueOps(st, ops), OpText(op))
  {
    QueueOpsAppend(st, ops, [op]);
  }

  lemma UndosSnoc(n: nat)
    ensures Undos(n + 1) == Undos(n) + [Undo]
  {
    assert Undos(n + 1) == Undos(n) + [Undo];
  }

  lemma PlayAllSnoc(ps: seq<Play>, j: nat)
    requires j < |ps|
    ensures PlayAll(ps[..j + 1]) == PlayAll(ps[..j]) + [PlayMove(ps[j])]
  {
    assert PlayAll(ps[..j + 1]) == PlayAll(ps[..j]) + [PlayMove(ps[j])];
  }

  lemma {:induction false} QueueOpsAppend(st: State, a: seq<BoardOp>, b: seq<BoardOp>)
    ensures QueueOps(st, a + b) == QueueOps(QueueOps(st, a), b)
    decreases |a|
  {
    if a == [] {
      assert a + b == b;
    } else {
      assert (a + b)[1..] == a[1..] + b;
      QueueOpsAppend(Leelaz(st, OpText(a[0])), a[1..], b);
    }
  }

  /** The entries of the board commands. */
  function OpEntries(ops: seq<BoardOp>): seq<Entry>
  {
    seq(|ops|, i requires 0 <= i < |ops| => Cmd(OpText(ops[i])))
  }

  lemma OpEntriesCons(ops: seq<BoardOp>)
    requires ops != []
    ensures OpEntries(ops) == [Cmd(OpText(ops[0]))] + OpEntries(ops[1..])
  {
    var a := OpEntries(ops);
    var b := [Cmd(OpText(ops[0]))] + OpEntries(ops[1..]);
    assert |a| == |b|;
    forall i | 0 <= i < |a| ensures a[i] == b[i] {
      if i > 0 {
        assert b[i] == OpEntries(ops[1..])[i - 1];
      }
    }
  }

  predicate GtpMoves(ops: seq<BoardOp>)
  {
    forall i :: 0 <= i < |ops| ==> ops[i].PlayMove? ==> !Contains(ops[i].play.move, "undo")
  }

  /** The queue after pruning and pushing each board command in turn. */
  function PruneOps(q: seq<Entry>, ops: seq<BoardOp>): seq<Entry>
    decreases |ops|
  {
    if ops == [] then q else PruneOps(Pruned(q, Cmd(OpText(ops[0]))), ops[1..])
  }

  /** While the engine is busy, the board commands only go to the queue; nothing is written. */
  lemma {:induction false} QueueOpsWhileBusyPrunes(st: State, ops: seq<BoardOp>)
    requires !UpToDate(st)
    ensures QueueOps(st, ops) == st.(queue := PruneOps(st.queue, ops))
    decreases |ops|
  {
    if ops != [] {
      var s1 := st.(queue := Pruned(st.queue, Cmd(OpText(ops[0]))));
      SendToQueueWhileBusy(st, Cmd(OpText(ops[0])));
      QueueOpsWhileBusyPrunes(s1, ops[1..]);
    }
  }

  /**
   * While the engine is busy, the board commands of a diff all wait in the queue, after what
   * is left of it, in their order; nothing is written.
   */
  lemma QueueOpsWhileBusy(st: State, ops: seq<BoardOp>)
    requires !UpToDate(st) && GtpMoves(ops)
    ensures var r := QueueOps(st, ops);
      && r.sent == st.sent && r.lastCommandId == st.lastCommandId
      && |r.queue| >= |ops| && r.queue[|r.queue| - |ops|..] == OpEntries(ops)
  {
    var q := PruneOps(st.queue, ops);
    assert QueueOps(st, ops) == st.(queue := q) by {
      QueueOpsWhileBusyPrunes(st, ops);
    }
    assert |q| >= |ops| && q[|q| - |ops|..] == OpEntries(ops) by {
      PruneOpsTail(st.queue, ops, 0);
      assert st.queue[|st.queue|..] + OpEntries(ops) == OpEntries(ops);
    }
  }

  /** An entry no later command removes from the queue. */
  predicate Lasting(e: Entry)
  {
    !IsPondering(e) && !IsEndstate(e) && !IsPeek(e)
  }

  predicate AllLasting(q: seq<Entry>)
  {
    forall i :: 0 <= i < |q| ==> Lasting(q[i])
  }

  lemma LastingSurvives(s: Entry, e: Entry)
    requires Lasting(e)
    ensures Survives(s, e)
  {
  }

  /** Board commands are never pruned. */
  lemma BoardCommandLasting(op: BoardOp)
    requires op.PlayMove? ==> !Contains(op.play.move, "undo")
    ensures Lasting(Cmd(OpText(op)))
  {
    BoardCommandSurvives(Cmd(OpText(op)), op);
  }

  /** Entries no later command removes keep their place, followed by the board commands. */
  lemma {:induction false} PruneOpsTail(q: seq<Entry>, ops: seq<BoardOp>, n: nat)
    requires GtpMoves(ops) && n <= |q| && AllLasting(q[|q| - n..])
    ensures var r := PruneOps(q, ops);
      |r| >= n + |ops| && r[|r| - |ops| - n..] == q[|q| - n..] + OpEntries(ops)
    decreases |ops|
  {
    var tail := q[|q| - n..];
    if ops == [] {
      assert tail + OpEntries(ops) == tail;
    } else {
      var o := Cmd(OpText(ops[0]));
      var q1 := Pruned(q, o);
      GtpMovesCons(ops);
      PrunedTail(q, ops[0], n);
      PruneOpsTail(q1, ops[1..], n + 1);
      OpEntriesCons(ops);
      AppendAssoc(tail, [o], OpEntries(ops[1..]));
    }
  }

  lemma GtpMovesCons(ops: seq<BoardOp>)
    requires ops != [] && GtpMoves(ops)
    ensures ops[0].PlayMove? ==> !Contains(ops[0].play.move, "undo")
    ensures GtpMoves(ops[1..])
  {
    assert forall i :: 0 <= i < |ops[1..]| ==> ops[1..][i] == ops[i + 1];
  }

  /** One board command joins the lasting tail of the queue. */
  lemma PrunedTail(q: seq<Entry>, op: BoardOp, n: nat)
    requires n <= |q| && AllLasting(q[|q| - n..])
    requires op.PlayMove? ==> !Contains(op.play.move, "undo")
    ensures var q1 := Pruned(q, Cmd(OpText(op)));
      && |q1| >= n + 1 && q1[|q1| - (n + 1)..] == q[|q| - n..] + [Cmd(OpText(op))]
      && AllLasting(q1[|q1| - (n + 1)..])
  {
    var o := Cmd(OpText(op));
    var q1 := Pruned(q, o);
    PrunedIsSurvivors(q, o);
    SurvivorsSuffix(q, o, n);
    BoardCommandLasting(op);
    var sv := Survivors(q, o);
    assert q1 == sv + [o];
    var tail := q[|q| - n..];
    assert q1[|q1| - (n + 1)..] == sv[|sv| - n..] + [o];
    forall j | 0 <= j < n + 1 ensures Lasting((tail + [o])[j]) {
      if j < n {
        assert (tail + [o])[j] == tail[j];
      }
    }
  }

  lemma {:induction false} SurvivorsSnoc(q: seq<Entry>, e: Entry, s: Entry)
    ensures Survivors(q + [e], s) == Survivors(q, s) + (if Survives(s, e) then [e] else [])
    decreases |q|
  {
    var t := if Survives(s, e) then [e] else [];
    if q == [] {
      assert [] + [e] == [e];
      assert [e][1..] == [];
      assert Survivors([e], s) == t + Survivors([], s);
    } else {
      var h := if Survives(s, q[0]) then [q[0]] else [];
      assert (q + [e])[0] == q[0];
      assert (q + [e])[1..] == q[1..] + [e];
      assert Survivors(q + [e], s) == h + Survivors(q[1..] + [e], s);
      SurvivorsSnoc(q[1..], e, s);
      assert Survivors(q, s) == h + Survivors(q[1..], s);
      assert h + (Survivors(q[1..], s) + t) == (h + Survivors(q[1..], s)) + t;
    }
  }

  /** Lasting entries keep their place at the end of the surviving queue. */
  lemma {:induction false} SurvivorsSuffix(q: seq<Entry>, s: Entry, n: nat)
    requires n <= |q| && AllLasting(q[|q| - n..])
    ensures |Survivors(q, s)| >= n && Survivors(q, s)[|Survivors(q, s)| - n..] == q[|q| - n..]
    decreases n
  {
    if n > 0 {
      var init := q[..|q| - 1];
      var e := q[|q| - 1];
      assert q == init + [e];
      var tail := q[|q| - n..];
      assert tail == init[|init| - (n - 1)..] + [e];
      assert Lasting(e) by {
        assert tail[n - 1] == e;
      }
      var pre := init[|init| - (n - 1)..];
      assert AllLasting(pre) by {
        forall i | 0 <= i < n - 1 ensures Lasting(pre[i]) {
          assert pre[i] == tail[i];
        }
      }
      LastingSurvives(s, e);
      SurvivorsSnoc(init, e, s);
      SurvivorsSuffix(init, s, n - 1);
      var si := Survivors(init, s);
      assert Survivors(q, s) == si + [e];
      assert (si + [e])[|si| + 1 - n..] == si[|si| - (n - 1)..] + [e];
    }
  }

  // ---------------------------------------------------------------------------
  // what clearing the board and the move-count marker leave behind

  /** Everything written before is still written, in order, at the front of the log. */
  predicate SentExtends(a: State, b: State)
  {
    |a.sent| <= |b.sent| && b.sent[..|a.sent|] == a.sent
  }

  lemma SentExtendsTrans(a: State, b: State, c: State)
    requires SentExtends(a, b) && SentExtends(b, c)
    ensures SentExtends(a, c)
  {
    assert c.sent[..|a.sent|] == c.sent[..|b.sent|][..|a.sent|];
  }

  /** Dispatching only appends to the log. */
  lemma {:induction false} DispatchExtendsSent(st: State)
    ensures SentExtends(st, Dispatch(st))
    decreases |st.queue|
  {
    if st.queue != [] && UpToDate(st) {
      match st.queue[0]
      case Marker(mc, bt) =>
        var s := st.(queue := st.queue[1..], moveCount := mc, bturn := bt);
        DispatchMarker(st, mc, bt);
        DispatchExtendsSent(s);
      case Cmd(text) =>
        DispatchCommand(st, text);
        var r := Dispatch(st);
        assert r.sent[..|st.sent|] == st.sent;
    }
  }

  lemma SendToQueueExtendsSent(st: State, e: Entry)
    ensures SentExtends(st, SendToQueue(st, e))
  {
    DispatchExtendsSent(st.(queue := Pruned(st.queue, e)));
  }

  /** `update()` only appends to the log. */
  lemma UpdateExtendsSent(st: State)
    ensures SentExtends(st, Update(st))
  {
    var s1 := Endstate(st);
    if st.config.endstateHandler && IsSupported(st, "endstate") {
      SendToQueueExtendsSent(st, Cmd("endstate_map"));
    }
    if s1.pondering {
      SendToQueueExtendsSent(s1, Cmd(AnalysisCommand(s1.supported, s1.config)));
    }
    SentExtendsTrans(st, s1, Update(st));
  }

  /**
   * While a request is unanswered, `send_to_queue(x)` writes nothing and leaves the gate
   * shut; `x` is queued, and so is every queued entry no command removes.
   */
  lemma SendToQueueWhileBusyKeeps(st: State, x: Entry, e: Entry)
    requires !UpToDate(st) && (e == x || (e in st.queue && Lasting(e)))
    ensures var r := SendToQueue(st, x); !UpToDate(r) && r.sent == st.sent && e in r.queue
  {
    SendToQueueWhileBusy(st, x);
    PrunedIsSurvivors(st.queue, x);
    if e != x {
      SurvivorsMembers(st.queue, x);
      LastingSurvives(x, e);
    }
  }

  /** While a request is unanswered, `update()` writes nothing and keeps every lasting entry queued. */
  lemma UpdateWhileBusyKeeps(st: State, e: Entry)
    requires !UpToDate(st) && e in st.queue && Lasting(e)
    ensures var r := Update(st); !UpToDate(r) && r.sent == st.sent && e in r.queue
  {
    var s1 := Endstate(st);
    if st.config.endstateHandler && IsSupported(st, "endstate") {
      SendToQueueWhileBusyKeeps(st, Cmd("endstate_map"), e);
    }
    if s1.pondering {
      SendToQueueWhileBusyKeeps(s1, Cmd(AnalysisCommand(s1.supported, s1.config)), e);
    }
  }

  /** While busy, `clear_leelaz_board()` leaves `clear_board` waiting in the queue and writes nothing. */
  lemma ClearBoardWhileBusy(st: State)
    requires !UpToDate(st)
    ensures var r := ClearBoard(st);
      !UpToDate(r) && r.sent == st.sent && Cmd("clear_board") in r.queue && r.prevHistory == []
  {
    var c := Cmd("clear_board");
    ClearBoardTextKind();
    SendToQueueWhileBusyKeeps(st, c, c);
    UpdateWhileBusyKeeps(Leelaz(st, "clear_board").(prevHistory := []), c);
  }

  /** With every request answered and nothing queued, `leelaz(cmd)` writes `cmd` at once with the next id. */
  lemma LeelazIdle(st: State, cmd: string)
    requires UpToDate(st) && st.queue == [] && ';' !in cmd
    ensures var r := Leelaz(st, cmd);
      r.sent == st.sent + [FormatCommand(st.lastCommandId + 1, cmd)] && r.queue == []
  {
    var s0 := st.(queue := Pruned(st.queue, Cmd(cmd)));
    PrunedIsSurvivors(st.queue, Cmd(cmd));
    assert s0.queue == [Cmd(cmd)];
    DispatchCommand(s0, cmd);
    SplitNoSep(cmd, ';');
    assert Requests(st.lastCommandId + 1, [cmd]) == [FormatCommand(st.lastCommandId + 1, cmd)];
  }

  /**
   * With every request answered and nothing queued, `clear_leelaz_board()` writes
   * `clear_board` with the next id, before anything its update writes.
   */
  lemma ClearBoardIdle(st: State)
    requires UpToDate(st) && st.queue == []
    ensures var r := ClearBoard(st);
      && |st.sent| < |r.sent| && r.sent[..|st.sent| + 1] == st.sent + [FormatCommand(st.lastCommandId + 1, "clear_board")]
      && r.prevHistory == []
  {
    var s1 := Leelaz(st, "clear_board").(prevHistory := []);
    var r := Update(s1);
    assert ClearBoard(st) == r;
    ClearBoardTextKind();
    LeelazIdle(st, "clear_board");
    UpdateExtendsSent(s1);
    SentPrefixKept(s1, r, |st.sent| + 1);
    assert s1.sent[..|st.sent| + 1] == s1.sent;
  }

  /** While busy, `update_move_count(history)` leaves the marker for the history waiting in the queue. */
  lemma MarkerQueuedWhileBusy(st: State, history: seq<Play>)
    requires !UpToDate(st)
    ensures var r := UpdateMoveCount(st, history);
      !UpToDate(r) && r.sent == st.sent && MarkerFor(history) in r.queue
  {
    var m := MarkerFor(history);
    SendToQueueWhileBusyKeeps(st, m, m);
    UpdateWhileBusyKeeps(SendToQueue(st, m), m);
  }

  /** A queue of commands only: no marker waits in it. */
  predicate NoMarkers(q: seq<Entry>)
  {
    forall i :: 0 <= i < |q| ==> q[i].Cmd?
  }

  lemma PrunedNoMarkers(q: seq<Entry>, s: Entry)
    requires NoMarkers(q) && s.Cmd?
    ensures NoMarkers(Pruned(q, s))
  {
    PrunedIsSurvivors(q, s);
    SurvivorsMembers(q, s);
    var r := Pruned(q, s);
    forall i | 0 <= i < |r| ensures r[i].Cmd? {
      if i < |r| - 1 {
        assert r[i] in Survivors(q, s);
        var j :| 0 <= j < |q| && q[j] == r[i];
      }
    }
  }

  /** Queueing a command behind other commands leaves the move count and turn alone. */
  lemma LeelazKeepsBoard(st: State, cmd: string)
    requires NoMarkers(st.queue)
    ensures var r := Leelaz(st, cmd);
      r.moveCount == st.moveCount && r.bturn == st.bturn && NoMarkers(r.queue)
  {
    var s0 := st.(queue := Pruned(st.queue, Cmd(cmd)));
    PrunedNoMarkers(st.queue, Cmd(cmd));
    if s0.queue != [] && UpToDate(s0) {
      DispatchCommand(s0, s0.queue[0].text);
      assert forall i :: 0 <= i < |s0.queue[1..]| ==> s0.queue[1..][i] == s0.queue[i + 1];
    }
  }

  lemma UpdateKeepsBoard(st: State)
    requires NoMarkers(st.queue)
    ensures var r := Update(st); r.moveCount == st.moveCount && r.bturn == st.bturn
  {
    var s1 := Endstate(st);
    if st.config.endstateHandler && IsSupported(st, "endstate") {
      LeelazKeepsBoard(st, "endstate_map");
    }
    if s1.pondering {
      LeelazKeepsBoard(s1, AnalysisCommand(s1.supported, s1.config));
    }
  }

  /**
   * With every request answered and nothing queued, `update_move_count(history)` takes effect
   * at once: the move count is the history's length and the turn is the other colour's.
   */
  lemma UpdateMoveCountIdle(st: State, history: seq<Play>)
    requires UpToDate(st) && st.queue == []
    ensures var r := UpdateMoveCount(st, history);
      && r.moveCount == |history|
      && r.bturn == (history == [] || !history[|history| - 1].isBlack)
  {
    var m := MarkerFor(history);
    var s0 := st.(queue := Pruned(st.queue, m));
    PrunedIsSurvivors(st.queue, m);
    assert s0.queue == [m];
    DispatchMarker(s0, m.moveCount, m.bturn);
    var s1 := s0.(queue := [], moveCount := m.moveCount, bturn := m.bturn);
    assert SendToQueue(st, m) == s1;
    UpdateKeepsBoard(s1);
  }

  /**
   * `set_board([])` while busy: writes nothing, and both `clear_board` and the marker for the
   * empty history wait in the queue.
   */
  lemma SetBoardEmptyWhileBusy(st: State)
    requires !UpToDate(st)
    ensures var r := SetBoard(st, []);
      r.sent == st.sent && Cmd("clear_board") in r.queue && MarkerFor([]) in r.queue
  {
    var c := Cmd("clear_board");
    var m := MarkerFor([]);
    var s1 := ClearBoard(st);
    ClearBoardWhileBusy(st);
    ClearBoardTextKind();
    SendToQueueWhileBusyKeeps(s1, m, c);
    UpdateWhileBusyKeeps(SendToQueue(s1, m), c);
    MarkerQueuedWhileBusy(s1, []);
  }

  /** `set_board([])` when idle with nothing queued: `clear_board` is written first, with the next id. */
  lemma SetBoardEmptyIdle(st: State)
    requires UpToDate(st) && st.queue == []
    ensures var r := SetBoard(st, []);
      |st.sent| < |r.sent| && r.sent[..|st.sent| + 1] == st.sent + [FormatCommand(st.lastCommandId + 1, "clear_board")]
  {
    var s1 := ClearBoard(st);
    var s2 := SendToQueue(s1, MarkerFor([]));
    var r := Update(s2);
    assert SetBoard(st, []) == r;
    ClearBoardIdle(st);
    SendToQueueExtendsSent(s1, MarkerFor([]));
    UpdateExtendsSent(s2);
    SentExtendsTrans(s1, s2, r);
    SentPrefixKept(s1, r, |st.sent| + 1);
  }

  lemma SentPrefixKept(a: State, c: State, n: nat)
    requires SentExtends(a, c) && n <= |a.sent|
    ensures c.sent[..n] == a.sent[..n]
  {
    assert c.sent[..n] == c.sent[..|a.sent|][..n];
  }

  /** `peek_value(move, cont)`: the five-part peek command, with the evaluation awaited. */
  function PeekCommand(move: string, bturn: bool): string
  {
    Join(["lz-setoption name visits value 1", "play " + (if bturn then "b" else "w") + " " + move,
          "lz-analyze interval 0", "lz-setoption name visits value 0", "undo"], ';')
  }

  function PeekValue(st: State, move: string): (r: State)
    ensures r.peekPending
  {
    Leelaz(st.(peekPending := true), PeekCommand(move, st.bturn))
  }

  /** The peek goes out as its five parts, the colour to move playing `move`, then taken back. */
  lemma PeekCommandParts(move: string, bturn: bool)
    requires ';' !in move
    ensures Split(PeekCommand(move, bturn), ';') ==
      ["lz-setoption name visits value 1", "play " + (if bturn then "b" else "w") + " " + move,
       "lz-analyze interval 0", "lz-setoption name visits value 0", "undo"]
  {
    var parts := ["lz-setoption name visits value 1", "play " + (if bturn then "b" else "w") + " " + move,
                  "lz-analyze interval 0", "lz-setoption name visits value 0", "undo"];
    assert ';' !in parts[1] by {
      assert parts[1] == ("play " + (if bturn then "b" else "w") + " ") + move;
    }
    SplitJoin(parts, ';');
  }

  // ---------------------------------------------------------------------------
  // feature probing

  /** `check_supported(rules, after_all_checks)`: send the first probe with its handler, or finish. */
  function CheckSupported(st: State, rules: seq<Rule>): (r: State)
    ensures r.lastResponseId == st.lastResponseId && r.supported == st.supported
    ensures r.isReady == st.isReady && r.config == st.config && r.reader == st.reader
    ensures r.lastCommandId >= st.lastCommandId
    ensures rules != [] ==> r == TrySend(st, rules[0].cmd, Some(Probe(rules[0].feature, rules[1..])))
    ensures rules == [] ==> r.onResponse == st.onResponse && r.events == st.events + [Ready]
  {
    if rules == [] then AfterAllChecks(st)
    else TrySend(st, rules[0].cmd, Some(Probe(rules[0].feature, rules[1..])))
  }

  /** `after_all_checks`: clear the engine's board, then report readiness. */
  function AfterAllChecks(st: State): State
  {
    var s1 := ClearBoard(st);
    s1.(events := s1.events + [Ready])
  }

  /** A probe's handler: record the answer, go on with the remaining probes. */
  function RunProbe(st: State, p: Probe, ok: bool): (r: State)
    ensures r.supported == st.supported[p.feature := ok]
  {
    CheckSupported(st.(supported := st.supported[p.feature := ok]), p.rest)
  }

  /** `on_ready()`: once only, send the komi and start the probes. */
  function OnReady(st: State): State
  {
    if st.isReady then st
    else CheckSupported(TrySend(st.(isReady := true), "komi " + st.config.komi, None), PROBE_RULES)
  }

  /** `start(h)`: new arguments, not ready, an empty queue, the gate shut; then `on_ready` unless told to wait. */
  function Start(st: State, config: Config): (r: State)
    ensures r.config == config && r.queue == [] && r.lastResponseId == -2 && r.supported == st.supported
    ensures config.waitForStartup ==>
      !r.isReady && r.lastCommandId == -1 && r.sent == st.sent && r.onResponse == st.onResponse
    ensures !config.waitForStartup ==> r.isReady
    ensures forall id :: id in st.onResponse && id != 1 ==> id in r.onResponse && r.onResponse[id] == st.onResponse[id]
  {
    var s := st.(config := config, isReady := false, queue := [], lastCommandId := -1, lastResponseId := -2);
    if config.waitForStartup then s else OnReady(s)
  }

  /**
   * A handler left from before a restart stays registered, above the new request counter, and
   * the reply to the new request with its id runs it.
   */
  lemma StaleHandlerSurvivesStart(st: State, config: Config, p: Probe)
    requires !config.waitForStartup && 5 in st.onResponse && st.onResponse[5] == p
    ensures var r := Start(st, config);
      && r.lastCommandId == 1 && 5 in r.onResponse && r.onResponse[5] == p && 5 > r.lastCommandId
  {
    StartSendsProbe(st, config);
  }

  /**
   * The first ready message sends `komi` with id 0 and the first probe with id 1, and registers
   * its handler; the gate stays shut, so nothing queued goes out before the probes are answered.
   */
  lemma StartSendsProbe(st: State, config: Config)
    requires !config.waitForStartup
    ensures var r := Start(st, config);
      && r.isReady && r.queue == [] && r.lastCommandId == 1 && !UpToDate(r)
      && r.sent == st.sent + [FormatCommand(0, "komi " + config.komi), FormatCommand(1, "lz-analyze interval 1 minmoves 30")]
      && r.onResponse == st.onResponse[1 := Probe("minmoves", PROBE_RULES[1..])]
  {
    var s := st.(config := config, isReady := false, queue := [], lastCommandId := -1, lastResponseId := -2);
    var komi := "komi " + config.komi;
    var s1 := TrySend(s.(isReady := true), komi, None);
    var p := Probe(PROBE_RULES[0].feature, PROBE_RULES[1..]);
    assert Start(st, config) == TrySend(s1, PROBE_RULES[0].cmd, Some(p)) by {
      assert Start(st, config) == OnReady(s);
      assert OnReady(s) == CheckSupported(s1, PROBE_RULES);
    }
  }

  // ---------------------------------------------------------------------------
  // standard output

  /** `stdout_reader(s)`: correlate a reply with its handler, hand analysis lines on, then dispatch. */
  function OnStdout(st: State, line: string): State
  {
    Dispatch(SuggestStep(AfterReply(st, line), line))
  }

  /** With every request answered, an analysis line goes to the suggestion handler, if any. */
  function SuggestStep(st: State, line: string): State
  {
    if UpToDate(st) && IsInfoLine(line) && st.config.suggestHandler
    then st.(events := st.events + [Suggest(SuggestReader(line))]) else st
  }

  /** The reply part of `stdout_reader`: the reply id, and its handler run once and dropped. */
  function AfterReply(st: State, line: string): (r: State)
    ensures r.config == st.config
  {
    match ParseReply(line)
    case None => st
    case Some(Reply(ok, id)) => Correlate(st.(lastResponseId := id), ok, id)
  }

  /** The handler waiting for reply `id`, if any, runs once and is dropped. */
  function Correlate(st: State, ok: bool, id: int): State
  {
    if id in st.onResponse then
      var s2 := RunProbe(st, st.onResponse[id], ok);
      s2.(onResponse := s2.onResponse - {id})
    else st
  }

  /**
   * A reply `=N` or `?N` sets the reply id to N; the handler registered for N, if any, has run
   * with success exactly for `=`, recording the feature's answer, and is gone.
   */
  lemma ReplyCorrelation(st: State, line: string, ok: bool, id: int)
    requires ParseReply(line) == Some(Reply(ok, id))
    ensures var r := OnStdout(st, line);
      && r.lastResponseId == id && id !in r.onResponse
      && (id in st.onResponse ==> r.supported == st.supported[st.onResponse[id].feature := ok])
      && (id !in st.onResponse ==> r.supported == st.supported)
  {
    AfterReplyCorrelation(st, line, ok, id);
    ReplyIsNotInfo(line);
    var s1 := AfterReply(st, line);
    assert SuggestStep(s1, line) == s1;
    assert SameSetting(s1, Dispatch(s1));
  }

  lemma AfterReplyCorrelation(st: State, line: string, ok: bool, id: int)
    requires ParseReply(line) == Some(Reply(ok, id))
    ensures var r := AfterReply(st, line);
      && r.lastResponseId == id && id !in r.onResponse
      && (id in st.onResponse ==> r.supported == st.supported[st.onResponse[id].feature := ok])
      && (id !in st.onResponse ==> r.supported == st.supported)
  {
    if id in st.onResponse {
      var p := st.onResponse[id];
      var s0 := st.(lastResponseId := id);
      var s2 := RunProbe(s0, p, ok);
      assert AfterReply(st, line) == s2.(onResponse := s2.onResponse - {id});
    }
  }

  /**
   * The reply to a probe with probes left records the answer and sends the next probe with
   * the next id and its handler, and nothing else.
   */
  lemma ProbeStep(st: State, line: string, ok: bool, id: int, f: string, rest: seq<Rule>)
    requires ParseReply(line) == Some(Reply(ok, id))
    requires id <= st.lastCommandId && id in st.onResponse && st.onResponse[id] == Probe(f, rest) && rest != []
    ensures var r := OnStdout(st, line);
      && r.supported == st.supported[f := ok]
      && r.lastCommandId == st.lastCommandId + 1
      && r.sent == st.sent + [FormatCommand(st.lastCommandId + 1, rest[0].cmd)]
      && r.onResponse == (st.onResponse - {id})[st.lastCommandId + 1 := Probe(rest[0].feature, rest[1..])]
      && r.events == st.events && r.queue == st.queue
  {
    AfterProbeReply(st, line, ok, id, f, rest);
    GatedReply(st, line);
  }

  /** A reply that leaves a request unanswered dispatches nothing. */
  lemma GatedReply(st: State, line: string)
    requires ParseReply(line).Some? && !UpToDate(AfterReply(st, line))
    ensures OnStdout(st, line) == AfterReply(st, line)
  {
    var s1 := AfterReply(st, line);
    ReplyIsNotInfo(line);
    assert SuggestStep(s1, line) == s1;
    DispatchGated(s1);
  }

  lemma AfterProbeReply(st: State, line: string, ok: bool, id: int, f: string, rest: seq<Rule>)
    requires ParseReply(line) == Some(Reply(ok, id))
    requires id <= st.lastCommandId && id in st.onResponse && st.onResponse[id] == Probe(f, rest) && rest != []
    ensures AfterReply(st, line)
         == TrySend(st.(lastResponseId := id, supported := st.supported[f := ok], onResponse := st.onResponse - {id}),
                    rest[0].cmd, Some(Probe(rest[0].feature, rest[1..])))
    ensures !UpToDate(AfterReply(st, line))
  {
    var s0 := st.(lastResponseId := id, supported := st.supported[f := ok]);
    var next := Probe(rest[0].feature, rest[1..]);
    var s2 := TrySend(s0, rest[0].cmd, Some(next));
    ProbeReplyRuns(st, line, ok, id);
    assert RunProbe(st.(lastResponseId := id), Probe(f, rest), ok) == s2;
    TrySendThenDrop(s0, rest[0].cmd, next, id);
    assert s0.(onResponse := s0.onResponse - {id})
        == st.(lastResponseId := id, supported := st.supported[f := ok], onResponse := st.onResponse - {id});
  }

  /** Dropping an older handler after a send is the same as dropping it before. */
  lemma TrySendThenDrop(s0: State, cmd: string, next: Probe, id: int)
    requires id <= s0.lastCommandId
    ensures var s2 := TrySend(s0, cmd, Some(next));
      s2.(onResponse := s2.onResponse - {id}) == TrySend(s0.(onResponse := s0.onResponse - {id}), cmd, Some(next))
  {
    RemoveAfterUpdate(s0.onResponse, s0.lastCommandId + 1, next, id);
  }

  lemma ProbeReplyRuns(st: State, line: string, ok: bool, id: int)
    requires ParseReply(line) == Some(Reply(ok, id)) && id in st.onResponse
    ensures var s2 := RunProbe(st.(lastResponseId := id), st.onResponse[id], ok);
      AfterReply(st, line) == s2.(onResponse := s2.onResponse - {id})
  {
  }

  lemma RemoveAfterUpdate<K, V>(m: map<K, V>, k: K, v: V, id: K)
    requires id != k
    ensures m[k := v] - {id} == (m - {id})[k := v]
  {
  }

  lemma ReplyIsNotInfo(line: string)
    requires ParseReply(line).Some?
    ensures !IsInfoLine(line)
  {
    assert line[0] != 'i';
  }

  /** The reply to the last probe records the answer and reports readiness once. */
  lemma ProbeLast(st: State, line: string, ok: bool, id: int, f: string)
    requires ParseReply(line) == Some(Reply(ok, id))
    requires id in st.onResponse && st.onResponse[id] == Probe(f, [])
    ensures var r := OnStdout(st, line);
      r.supported == st.supported[f := ok] && r.events == st.events + [Ready]
  {
    ReplyIsNotInfo(line);
  }

  /** Readiness is reported only by the reply that finishes the probes. */
  lemma ReadyOnlyAtEnd(st: State, line: string)
    requires !IsInfoLine(line)
    ensures var r := OnStdout(st, line);
      r.events == st.events + (if ParseReply(line).Some? && ParseReply(line).value.id in st.onResponse
                                  && st.onResponse[ParseReply(line).value.id].rest == []
                               then [Ready] else [])
  {
  }

  // ---------------------------------------------------------------------------
  // standard error

  /** `reader(s)`: the current reader takes the line. */
  function OnStderr(st: State, line: string): State
  {
    if st.reader == MainReader then MainReaderLine(st, line) else EndstateReaderLine(st, line)
  }

  /** `main_reader`: readiness, a wrong weights file, a peek's evaluation, the start of an endstate block. */
  function MainReaderLine(st: State, line: string): State
  {
    EndstateStart(EvalStep(WeightsStep(ReadyStep(st, line), line), line), line)
  }

  /** The engine's ready message (Leela Zero's or KataGo's) runs `on_ready`. */
  function ReadyStep(st: State, line: string): State
  {
    if Contains(line, "Setting max tree size") || Contains(line, "GTP ready") then OnReady(st) else st
  }

  /** A wrong weights file goes to the error handler. */
  function WeightsStep(st: State, line: string): State
  {
    if Contains(line, "Weights file is the wrong version") then st.(events := st.events + [EngineError]) else st
  }

  /** A network evaluation answers a pending peek once, and analysis resumes. */
  function EvalStep(st: State, line: string): State
  {
    match NnEval(line)
    case Some(v) =>
      if st.peekPending then Update(st.(peekPending := false, events := st.events + [PeekResult(v)])) else st
    case None => st
  }

  /** `endstate:` switches standard error to the endstate reader. */
  function EndstateStart(st: State, line: string): State
  {
    if Contains(line, "endstate:") then st.(reader := EndstateReader) else st
  }

  /** The endstate reader (`multiline_reader`): buffer each row; at the closing line hand the rows over and switch back. */
  function EndstateReaderLine(st: State, line: string): (r: State)
    ensures ParseEndstateLine(line).Some? ==>
      r == st.(endstateBuf := st.endstateBuf + [ParseEndstateLine(line).value])
    ensures ParseEndstateLine(line).None? ==>
      && r.reader == MainReader && r.endstateBuf == []
      && r.events == st.events + (if st.config.endstateHandler then [EndstateMap(st.endstateBuf, st.moveCount)] else [])
  {
    match ParseEndstateLine(line)
    case Some(row) => st.(endstateBuf := st.endstateBuf + [row])
    case None => FinishEndstate(st).(endstateBuf := [], reader := MainReader)
  }

  /** `finish_endstate_reader(buf)`: the buffered rows go to the endstate handler, if any, with the move count. */
  function FinishEndstate(st: State): State
  {
    if st.config.endstateHandler then st.(events := st.events + [EndstateMap(st.endstateBuf, st.moveCount)]) else st
  }

  /** Lines of standard error, one after another. */
  function OnStderrLines(st: State, lines: seq<string>): State
    decreases |lines|
  {
    if lines == [] then st else OnStderrLines(OnStderr(st, lines[0]), lines[1..])
  }

  /** No line closes an endstate block. */
  predicate NoSumLines(lines: seq<string>)
    decreases |lines|
  {
    lines == [] || (!Contains(lines[0], "endstate sum") && NoSumLines(lines[1..]))
  }

  /** The rows of an endstate block's lines. */
  function Rows(lines: seq<string>): seq<seq<int>>
    requires NoSumLines(lines)
    decreases |lines|
  {
    if lines == [] then [] else [ParseEndstateLine(lines[0]).value] + Rows(lines[1..])
  }

  /** Lines read by the endstate reader alone. */
  function EndstateLines(st: State, lines: seq<string>): State
    decreases |lines|
  {
    if lines == [] then st else EndstateLines(EndstateReaderLine(st, lines[0]), lines[1..])
  }

  /** Inside an endstate block every line goes to the endstate reader. */
  lemma {:induction false} InsideEndstateBlock(st: State, lines: seq<string>)
    requires st.reader == EndstateReader && NoSumLines(lines)
    ensures OnStderrLines(st, lines) == EndstateLines(st, lines)
    decreases |lines|
  {
    if lines != [] {
      var s1 := EndstateReaderLine(st, lines[0]);
      assert OnStderr(st, lines[0]) == s1;
      InsideEndstateBlock(s1, lines[1..]);
    }
  }

  /** Each row of the block is buffered, in order; nothing else changes. */
  lemma {:induction false} EndstateRowsBuffered(st: State, lines: seq<string>)
    requires NoSumLines(lines)
    ensures EndstateLines(st, lines) == st.(endstateBuf := st.endstateBuf + Rows(lines))
    decreases |lines|
  {
    if lines == [] {
      assert st.endstateBuf + Rows(lines) == st.endstateBuf;
    } else {
      var row := ParseEndstateLine(lines[0]).value;
      var s1 := st.(endstateBuf := st.endstateBuf + [row]);
      EndstateRowStep(st, lines);
      EndstateRowsBuffered(s1, lines[1..]);
      AppendAssoc(st.endstateBuf, [row], Rows(lines[1..]));
    }
  }

  lemma EndstateRowStep(st: State, lines: seq<string>)
    requires lines != [] && NoSumLines(lines)
    ensures NoSumLines(lines[1..])
    ensures Rows(lines) == [ParseEndstateLine(lines[0]).value] + Rows(lines[1..])
    ensures EndstateLines(st, lines) ==
            EndstateLines(st.(endstateBuf := st.endstateBuf + [ParseEndstateLine(lines[0]).value]), lines[1..])
  {
  }

  /**
   * An endstate block: after its rows, the closing `endstate sum` line hands all rows, in
   * order, to the handler with the current move count, empties the buffer and switches back.
   */
  lemma EndstateBlock(st: State, lines: seq<string>, sum: string)
    requires st.reader == EndstateReader && st.endstateBuf == [] && st.config.endstateHandler
    requires NoSumLines(lines)
    requires Contains(sum, "endstate sum")
    ensures var r := OnStderrLines(st, lines + [sum]);
      && r.events == st.events + [EndstateMap(Rows(lines), st.moveCount)]
      && r.endstateBuf == [] && r.reader == MainReader
  {
    OnStderrLinesAppend(st, lines, [sum]);
    InsideEndstateBlock(st, lines);
    EndstateRowsBuffered(st, lines);
    var s1 := OnStderrLines(st, lines);
    assert s1.endstateBuf == Rows(lines);
    assert OnStderrLines(s1, [sum]) == OnStderr(s1, sum);
  }

  lemma {:induction false} OnStderrLinesAppend(st: State, a: seq<string>, b: seq<string>)
    ensures OnStderrLines(st, a + b) == OnStderrLines(OnStderrLines(st, a), b)
    decreases |a|
  {
    if a == [] {
      assert a + b == b;
    } else {
      assert (a + b)[1..] == a[1..] + b;
      OnStderrLinesAppend(OnStderr(st, a[0]), a[1..], b);
    }
  }
}
