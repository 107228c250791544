/**
 * The engine session object of src/engine.js: the closure variables of `create_leelaz` as
 * fields, its inner procedures as methods. Each method is proved to move the session exactly
 * as the matching transition of EngineSpec moves its abstract state.
 */
module EngineSession {
  import opened Wrappers
  import opened JsString
  import opened Util
  import opened EngineCommands
  import opened EngineSpec

  class Session {
    var config: Config
    var isReady: bool
    var queue: seq<Entry>
    var lastCommandId: int
    var lastResponseId: int
    var onResponse: map<int, Probe>
    var sent: seq<string>
    var pondering: bool
    var moveCount: nat
    var bturn: bool
    var prevHistory: seq<Play>
    var supported: map<string, bool>
    var reader: Reader
    var endstateBuf: seq<seq<int>>
    var peekPending: bool
    var events: seq<Event>

    /** The session as an EngineSpec state. */
    function Abs(): State
      reads this
    {
      State(config, isReady, queue, lastCommandId, lastResponseId, onResponse, sent, pondering,
            moveCount, bturn, prevHistory, supported, reader, endstateBuf, peekPending, events)
    }

    /** `create_leelaz()`. */
    constructor()
      ensures Abs() == Initial()
    {
      config := NO_ARGS;
      isReady := false;
      queue := [];
      lastCommandId := -1;
      lastResponseId := -2;
      onResponse := map[];
      sent := [];
      pondering := true;
      moveCount := 0;
      bturn := true;
      prevHistory := [];
      supported := map[];
      reader := MainReader;
      endstateBuf := [];
      peekPending := false;
      events := [];
    }

    // -------------------------------------------------------------------------
    // command queue

    /** `try_send_to_leelaz(cmd, on_response)`. */
    method TrySend(cmd: string, handler: Option<Probe>)
      modifies this
      ensures Abs() == EngineSpec.TrySend(old(Abs()), cmd, handler)
    {
      var id := lastCommandId + 1;
      lastCommandId, sent := id, sent + [FormatCommand(id, cmd)];
      if handler.Some? {
        onResponse := onResponse[id := handler.value];
      }
    }

    /** `send_from_queue()`. */
    method SendFromQueue()
      modifies this
      ensures Abs() == Dispatch(old(Abs()))
      decreases |queue|
    {
      if queue == [] || lastResponseId < lastCommandId {
        return;
      }
      var head := queue[0];
      ghost var s := Abs();
      PopQueue();
      match head {
        case Marker(mc, bt) =>
          ghost var s1 := Abs();
          moveCount, bturn := mc, bt;
          assert Abs() == s1.(moveCount := mc, bturn := bt);
          assert Dispatch(s) == Dispatch(Abs());
          SendFromQueue();
        case Cmd(text) =>
          SendParts(Split(text, ';'));
      }
    }

    /** Takes the head of the queue off. */
    method PopQueue()
      requires queue != []
      modifies this
      ensures Abs() == old(Abs()).(queue := old(queue)[1..])
    {
      queue := queue[1..];
    }

    /** The loop of `send_from_queue` over the parts of one entry. */
    method SendParts(parts: seq<string>)
      modifies this
      ensures Abs() == SendAll(old(Abs()), parts)
    {
      var i := 0;
      while i < |parts|
        invariant 0 <= i <= |parts|
        invariant SendAll(Abs(), parts[i..]) == SendAll(old(Abs()), parts)
      {
        assert parts[i..][1..] == parts[i + 1..];
        TrySend(parts[i], None);
        i := i + 1;
      }
    }

    /** `send_to_queue(s)`. */
    method SendToQueue(e: Entry)
      modifies this
      ensures Abs() == EngineSpec.SendToQueue(old(Abs()), e)
    {
      ghost var s := Abs();
      queue := Pruned(queue, e);
      assert Abs() == s.(queue := Pruned(s.queue, e));
      SendFromQueue();
    }

    /** `leelaz(s)`. */
    method Leelaz(cmd: string)
      modifies this
      ensures Abs() == EngineSpec.Leelaz(old(Abs()), cmd)
    {
      SendToQueue(Cmd(cmd));
    }

    // -------------------------------------------------------------------------
    // analysis and board

    /** `start_analysis()`. */
    method StartAnalysis()
      modifies this
      ensures Abs() == EngineSpec.StartAnalysis(old(Abs()))
    {
      var command := EngineSpec.AnalysisCommand(supported, config);
      if pondering {
        Leelaz(command);
      }
    }

    /** `endstate()`. */
    method Endstate()
      modifies this
      ensures Abs() == EngineSpec.Endstate(old(Abs()))
    {
      if config.endstateHandler && "endstate" in supported && supported["endstate"] {
        Leelaz("endstate_map");
      }
    }

    /** `update()`. */
    method Update()
      modifies this
      ensures Abs() == EngineSpec.Update(old(Abs()))
    {
      Endstate();
      StartAnalysis();
    }

    /** `set_pondering(bool)`. */
    method SetPondering(b: bool)
      modifies this
      ensures Abs() == EngineSpec.SetPondering(old(Abs()), b)
    {
      ghost var s := Abs();
      if b != pondering {
        pondering := b;
        assert Abs() == s.(pondering := b);
        if b {
          StartAnalysis();
        } else {
          Leelaz("name");
        }
      }
    }

    /** `clear_leelaz_board()`. */
    method ClearBoard()
      modifies this
      ensures Abs() == EngineSpec.ClearBoard(old(Abs()))
    {
      Leelaz("clear_board");
      ghost var s := Abs();
      prevHistory := [];
      assert Abs() == s.(prevHistory := []);
      Update();
    }

    /** `update_move_count(history)`. */
    method UpdateMoveCount(history: seq<Play>)
      modifies this
      ensures Abs() == EngineSpec.UpdateMoveCount(old(Abs()), history)
    {
      SendToQueue(MarkerFor(history));
      Update();
    }

    /** `set_board(history)`. */
    method SetBoard(history: seq<Play>)
      modifies this
      ensures Abs() == EngineSpec.SetBoard(old(Abs()), history)
    {
      if history == [] {
        ClearBoard();
        UpdateMoveCount([]);
      } else {
        SyncBoard(history);
        RecordBoard(history);
      }
    }

    /** The engine's board is now `history`. */
    method RecordBoard(history: seq<Play>)
      modifies this
      ensures Abs() == old(Abs()).(prevHistory := history)
    {
      prevHistory := history;
    }

    /** The body of `set_board` for a non-empty history, up to recording it. */
    method SyncBoard(history: seq<Play>)
      modifies this
      ensures Abs() == EngineSpec.SyncBoard(old(Abs()), history)
    {
      var beg := CommonHeaderLength(history, prevHistory);
      var back := |prevHistory| - beg;
      var rest := history[beg..];
      SyncBoardSteps(Abs(), history, back, rest);
      QueueUndos(back);
      QueuePlays(rest);
      MarkIfChanged(history, back > 0 || |rest| > 0);
    }

    /** `set_board`'s closing `update_move_count`, when the board changed. */
    method MarkIfChanged(history: seq<Play>, changed: bool)
      modifies this
      ensures Abs() == if changed then EngineSpec.UpdateMoveCount(old(Abs()), history) else old(Abs())
    {
      if changed {
        UpdateMoveCount(history);
      }
    }

    /** `set_board`'s first loop: `n` times `undo`. */
    method QueueUndos(n: nat)
      modifies this
      ensures Abs() == QueueOps(old(Abs()), Undos(n))
    {
      var i := 0;
      while i < n
        invariant 0 <= i <= n
        invariant Abs() == QueueOps(old(Abs()), Undos(i))
      {
        UndosSnoc(i);
        QueueOpsSnoc(old(Abs()), Undos(i), Undo);
        Leelaz("undo");
        i := i + 1;
      }
    }

    /** `set_board`'s second loop: a `play` per move of `rest`. */
    method QueuePlays(rest: seq<Play>)
      modifies this
      ensures Abs() == QueueOps(old(Abs()), PlayAll(rest))
    {
      var j := 0;
      while j < |rest|
        invariant 0 <= j <= |rest|
        invariant Abs() == QueueOps(old(Abs()), PlayAll(rest[..j]))
      {
        var cmd := "play " + (if rest[j].isBlack then "b " else "w ") + rest[j].move;
        assert cmd == OpText(PlayMove(rest[j]));
        PlayAllSnoc(rest, j);
        QueueOpsSnoc(old(Abs()), PlayAll(rest[..j]), PlayMove(rest[j]));
        Leelaz(cmd);
        j := j + 1;
      }
      assert rest[..j] == rest;
    }

    /** `peek_value(move, cont)`: the continuation becomes a `PeekResult` event. */
    method PeekValue(move: string)
      modifies this
      ensures Abs() == EngineSpec.PeekValue(old(Abs()), move)
    {
      ghost var s := Abs();
      peekPending := true;
      assert Abs() == s.(peekPending := true);
      Leelaz(PeekCommand(move, bturn));
    }

    // -------------------------------------------------------------------------
    // lifecycle and probing

    /** `check_supported(rules, after_all_checks)`. */
    method CheckSupported(rules: seq<Rule>)
      modifies this
      ensures Abs() == EngineSpec.CheckSupported(old(Abs()), rules)
    {
      if rules == [] {
        ClearBoard();
        ghost var s := Abs();
        events := events + [Ready];
        assert Abs() == s.(events := s.events + [Ready]);
        return;
      }
      TrySend(rules[0].cmd, Some(Probe(rules[0].feature, rules[1..])));
    }

    /** `on_ready()`. */
    method OnReady()
      modifies this
      ensures Abs() == EngineSpec.OnReady(old(Abs()))
    {
      if isReady {
        return;
      }
      ghost var s := Abs();
      isReady := true;
      assert Abs() == s.(isReady := true);
      TrySend("komi " + config.komi, None);
      CheckSupported(PROBE_RULES);
    }

    /** `start(h)`. */
    method Start(c: Config)
      modifies this
      ensures Abs() == EngineSpec.Start(old(Abs()), c)
    {
      Reset(c);
      if !c.waitForStartup {
        OnReady();
      }
    }

    /** The assignments at the head of `start(h)`. */
    method Reset(c: Config)
      modifies this
      ensures Abs() == old(Abs()).(config := c, isReady := false, queue := [], lastCommandId := -1, lastResponseId := -2)
    {
      SetConfig(c);
      ResetIds();
    }

    /** The new arguments, with the gate shut until the engine is ready. */
    method SetConfig(c: Config)
      modifies this
      ensures Abs() == old(Abs()).(config := c, isReady := false)
    {
      config, isReady := c, false;
    }

    /** An empty queue and the counters a fresh process starts from. */
    method ResetIds()
      modifies this
      ensures Abs() == old(Abs()).(queue := [], lastCommandId := -1, lastResponseId := -2)
    {
      queue, lastCommandId, lastResponseId := [], -1, -2;
    }

    /** `restart(h)`: the session starts again with the new arguments, or the old ones. */
    method Restart(c: Option<Config>)
      modifies this
      ensures Abs() == EngineSpec.Start(old(Abs()), if c.Some? then c.value else old(config))
    {
      Start(if c.Some? then c.value else config);
    }

    /** `start_args()`. */
    function StartArgs(): (c: Config)
      reads this
      ensures c == Abs().config
    {
      config
    }

    /** `is_katago()`. */
    predicate IsKatago()
      reads this
      ensures IsKatago() <==> IsSupported(Abs(), "kata-analyze")
    {
      "kata-analyze" in supported && supported["kata-analyze"]
    }

    // -------------------------------------------------------------------------
    // readers

    /** `stdout_reader(s)`. */
    method OnStdout(line: string)
      modifies this
      ensures Abs() == EngineSpec.OnStdout(old(Abs()), line)
    {
      HandleReply(line);
      ReadSuggest(line);
      SendFromQueue();
    }

    /** The reply half of `stdout_reader`: record the id and run a waiting probe handler. */
    method HandleReply(line: string)
      modifies this
      ensures Abs() == AfterReply(old(Abs()), line)
    {
      match ParseReply(line) {
        case None =>
        case Some(Reply(ok, id)) =>
          RecordReply(id);
          Correlate(ok, id);
      }
    }

    /** `last_response_id = id`. */
    method RecordReply(id: int)
      modifies this
      ensures Abs() == old(Abs()).(lastResponseId := id)
    {
      lastResponseId := id;
    }

    /** `on_response_for_id[id]`, if set, is called and deleted. */
    method Correlate(ok: bool, id: int)
      modifies this
      ensures Abs() == EngineSpec.Correlate(old(Abs()), ok, id)
    {
      if id in onResponse {
        RunProbe(onResponse[id], ok);
        DropHandler(id);
      }
    }

    /** The handler `check_supported` registers: record the answer, then check the rest. */
    method RunProbe(p: Probe, ok: bool)
      modifies this
      ensures Abs() == EngineSpec.RunProbe(old(Abs()), p, ok)
    {
      ghost var s := Abs();
      supported := supported[p.feature := ok];
      assert Abs() == s.(supported := s.supported[p.feature := ok]);
      CheckSupported(p.rest);
    }

    /** `delete on_response_for_id[id]`. */
    method DropHandler(id: int)
      modifies this
      ensures Abs() == old(Abs()).(onResponse := old(onResponse) - {id})
    {
      onResponse := onResponse - {id};
    }

    /** The analysis half of `stdout_reader`. */
    method ReadSuggest(line: string)
      modifies this
      ensures Abs() == SuggestStep(old(Abs()), line)
    {
      if lastResponseId >= lastCommandId && IsInfoLine(line) && config.suggestHandler {
        events := events + [Suggest(SuggestReader(line))];
      }
    }

    /** `reader(s)`: the current standard-error reader takes the line. */
    method OnStderr(line: string)
      modifies this
      ensures Abs() == EngineSpec.OnStderr(old(Abs()), line)
    {
      if reader == MainReader {
        MainReaderLine(line);
      } else {
        EndstateReaderLine(line);
      }
    }

    /** `main_reader(s)`. */
    method MainReaderLine(line: string)
      modifies this
      ensures Abs() == EngineSpec.MainReaderLine(old(Abs()), line)
    {
      ReadReady(line);
      ReadWeights(line);
      ReadEval(line);
      ReadEndstateStart(line);
    }

    /** `main_reader`'s check for the engine's ready message. */
    method ReadReady(line: string)
      modifies this
      ensures Abs() == ReadyStep(old(Abs()), line)
    {
      if Contains(line, "Setting max tree size") || Contains(line, "GTP ready") {
        OnReady();
      }
    }

    /** `main_reader`'s switch to the endstate reader. */
    method ReadEndstateStart(line: string)
      modifies this
      ensures Abs() == EndstateStart(old(Abs()), line)
    {
      if Contains(line, "endstate:") {
        reader := EndstateReader;
      }
    }

    /** `main_reader`'s check for a wrong weights file. */
    method ReadWeights(line: string)
      modifies this
      ensures Abs() == WeightsStep(old(Abs()), line)
    {
      if Contains(line, "Weights file is the wrong version") {
        events := events + [EngineError];
      }
    }

    /** `main_reader`'s answer to a pending peek. */
    method ReadEval(line: string)
      modifies this
      ensures Abs() == EvalStep(old(Abs()), line)
    {
      ghost var s := Abs();
      var eval := NnEval(line);
      if eval.Some? && peekPending {
        peekPending := false;
        events := events + [PeekResult(eval.value)];
        assert Abs() == s.(peekPending := false, events := s.events + [PeekResult(eval.value)]);
        Update();
      }
    }

    /** The endstate reader made by `multiline_reader`. */
    method EndstateReaderLine(line: string)
      modifies this
      ensures Abs() == EngineSpec.EndstateReaderLine(old(Abs()), line)
    {
      var p := ParseEndstateLine(line);
      if p.Some? {
        BufferRow(p.value);
      } else {
        FinishEndstate();
        ResetEndstateReader();
      }
    }

    /** `buf.push(p)`. */
    method BufferRow(row: seq<int>)
      modifies this
      ensures Abs() == old(Abs()).(endstateBuf := old(endstateBuf) + [row])
    {
      endstateBuf := endstateBuf + [row];
    }

    /** `finish_endstate_reader(buf)`. */
    method FinishEndstate()
      modifies this
      ensures Abs() == EngineSpec.FinishEndstate(old(Abs()))
    {
      if config.endstateHandler {
        events := events + [EndstateMap(endstateBuf, moveCount)];
      }
    }

    /** `buf = [], current_reader = main_reader`. */
    method ResetEndstateReader()
      modifies this
      ensures Abs() == old(Abs()).(endstateBuf := [], reader := MainReader)
    {
      endstateBuf, reader := [], MainReader;
    }
  }
}
