/**
 * src/game.js: the game record. A game is a mutable history of move records with
 * 1-based access, truncation and suffix-reusing replacement; the module also turns
 * SGF game trees (as the SGF parser delivers them) into histories and hands out tag
 * letters for marking sequences.
 */
module Game {
  import opened Wrappers
  import opened JsString
  import opened Util

  // ---------------------------------------------------------------------------
  // records and game properties

  /**
   * One history record. Records are shared between histories (a copied game and the
   * engine's mirror hold the same objects), so identity matters and this is a class.
   */
  class Stone {
    const move: string
    const isBlack: bool
    const moveCount: nat
    const tag: string

    constructor (move: string, isBlack: bool, moveCount: nat, tag: string)
      ensures this.move == move && this.isBlack == isBlack
      ensures this.moveCount == moveCount && this.tag == tag
    {
      this.move, this.isBlack, this.moveCount, this.tag := move, isBlack, moveCount, tag;
    }
  }

  /** The move and colour of a record, as `common_header_length` compares them. */
  function PlayOf(s: Stone): Play
  {
    Play(s.move, s.isBlack)
  }

  /** The moves and colours of a history. */
  function Plays(h: seq<Stone>): seq<Play>
  {
    seq(|h|, i requires 0 <= i < |h| => PlayOf(h[i]))
  }

  lemma PlaysAppend(a: seq<Stone>, b: seq<Stone>)
    ensures Plays(a + b) == Plays(a) + Plays(b)
  {
  }

  /** The public properties of a game (`prop` in create_game). */
  datatype Props = Props(
    moveCount: nat, playerBlack: string, playerWhite: string,
    sgfFile: string, sgfStr: string, id: nat, trial: bool,
    lastLoadedElement: Option<Stone>)

  /** The properties of a new game without given properties. */
  function DefaultProps(id: nat): Props
  {
    Props(0, "", "", "", "", id, false, None)
  }

  // ---------------------------------------------------------------------------
  // global counters

  const NORMAL_TAG_LETTERS: string := "bdefghijklmnorstuwy"
  const LAST_LOADED_ELEMENT_TAG_LETTER: char := '.'

  /** The module-level counters `next_game_id` and `next_tag_count`, shared by all games. */
  class Registry {
    var nextGameId: nat
    var nextTagCount: nat

    ghost predicate Valid()
      reads this
    {
      nextTagCount <= |NORMAL_TAG_LETTERS|
    }

    constructor ()
      ensures Valid() && nextGameId == 0 && nextTagCount == 0
    {
      nextGameId, nextTagCount := 0, 0;
    }

    /** `new_game_id()`: the next id; ids handed out only increase. */
    method NewGameId() returns (id: nat)
      modifies this
      ensures id == old(nextGameId) && nextGameId == id + 1
      ensures nextTagCount == old(nextTagCount)
    {
      id := nextGameId;
      nextGameId := nextGameId + 1;
    }

    /** `new_tag_for_game(game)`: a tag letter, preferably one no record of the game uses. */
    method NewTagForGame(game: Game) returns (tag: char)
      requires Valid()
      modifies this
      ensures Valid() && nextGameId == old(nextGameId)
      ensures tag in NORMAL_TAG_LETTERS
      ensures tag == NORMAL_TAG_LETTERS[TagIndex(UsedTags(game.history), old(nextTagCount))]
      ensures nextTagCount == TagIndex(UsedTags(game.history), old(nextTagCount)) + 1
    {
      var used := UsedTags(game.history);
      var doubled := NORMAL_TAG_LETTERS + NORMAL_TAG_LETTERS;
      var from := if nextTagCount <= |doubled| then nextTagCount else |doubled|;
      var firstUnused := FirstUnusedIndex(doubled[from..], used);
      var tagCount := (nextTagCount + (if firstUnused > 0 then firstUnused else 0)) % |NORMAL_TAG_LETTERS|;
      assert tagCount == TagIndex(used, nextTagCount);
      nextTagCount := tagCount + 1;
      tag := NORMAL_TAG_LETTERS[tagCount];
    }
  }

  // ---------------------------------------------------------------------------
  // tag letters

  /** All tag letters used by a history (`game.map(h => h.tag || '').join('')`). */
  function UsedTags(h: seq<Stone>): string
    decreases |h|
  {
    if h == [] then "" else h[0].tag + UsedTags(h[1..])
  }

  /** A letter is used exactly when some record's tag holds it. */
  lemma {:induction false} UsedTagsMeaning(h: seq<Stone>)
    ensures forall c :: c in UsedTags(h) <==> exists i :: 0 <= i < |h| && c in h[i].tag
    decreases |h|
  {
    if h != [] {
      UsedTagsMeaning(h[1..]);
      assert forall i :: 0 <= i < |h[1..]| ==> h[1..][i] == h[i + 1];
    }
  }

  /** `findIndex(c => used.indexOf(c) < 0)`: the first candidate not used, or -1. */
  function FirstUnusedIndex(cands: string, used: string): (r: int)
    ensures -1 <= r < |cands|
    ensures r >= 0 ==> cands[r] !in used && forall j :: 0 <= j < r ==> cands[j] in used
    ensures r == -1 ==> forall j :: 0 <= j < |cands| ==> cands[j] in used
    decreases |cands|
  {
    if cands == [] then -1
    else if cands[0] !in used then 0
    else
      var r := FirstUnusedIndex(cands[1..], used);
      if r < 0 then -1 else r + 1
  }

  /** The index into the tag letters that `new_tag_for_game` picks when the counter is `next`. */
  function TagIndex(used: string, next: nat): (k: nat)
    ensures k < |NORMAL_TAG_LETTERS|
  {
    CyclicPick(NORMAL_TAG_LETTERS, used, next)
  }

  /** The scan of `new_tag_for_game` over any non-empty letters. */
  function CyclicPick(letters: string, used: string, next: nat): (k: nat)
    requires |letters| > 0
    ensures k < |letters|
  {
    var doubled := letters + letters;
    var from := if next <= |doubled| then next else |doubled|;
    var firstUnused := FirstUnusedIndex(doubled[from..], used);
    (next + (if firstUnused > 0 then firstUnused else 0)) % |letters|
  }

  /** The letter `d` steps after position `next`, going round the letters cyclically. */
  function CyclicIndex(letters: string, next: nat, d: nat): nat
    requires |letters| > 0
  {
    (next + d) % |letters|
  }

  lemma ModOnce(x: nat, n: nat)
    requires 0 < n && x < 2 * n
    ensures x % n == if x < n then x else x - n
  {
    if x >= n {
      assert x == n + (x - n);
    }
  }

  /** The candidates of the scan, the letters twice over from `next`, follow the cyclic order. */
  lemma DoubledAt(letters: string, next: nat, j: nat)
    requires |letters| > 0 && next + j < 2 * |letters|
    ensures (letters + letters)[next + j] == letters[CyclicIndex(letters, next, j)]
  {
    ModOnce(next + j, |letters|);
  }

  /** Every letter turns up among the first `|letters|` candidates. */
  lemma EveryLetterScanned(letters: string, next: nat, i: nat) returns (j: nat)
    requires 0 < |letters| && next <= |letters| && i < |letters|
    ensures j < |letters| && CyclicIndex(letters, next, j) == i
  {
    var n := |letters|;
    j := if i >= next then i - next else i + n - next;
    ModOnce(next + j, n);
  }

  /** The scan over the letters twice over picks the first unused letter in cyclic order. */
  lemma {:induction false} CyclicScan(letters: string, used: string, next: nat)
    requires 0 < |letters| && next <= |letters|
    ensures var k := CyclicPick(letters, used, next);
      (exists c :: c in letters && c !in used) ==>
        && letters[k] !in used
        && exists d :: 0 <= d < |letters| && k == CyclicIndex(letters, next, d)
             && forall e :: 0 <= e < d ==> letters[CyclicIndex(letters, next, e)] in used
    ensures (forall c :: c in letters ==> c in used) ==> CyclicPick(letters, used, next) == next % |letters|
  {
    var n := |letters|;
    var cands := (letters + letters)[next..];
    var f := FirstUnusedIndex(cands, used);
    assert |cands| == 2 * n - next;
    forall j | 0 <= j < |cands| ensures cands[j] == letters[CyclicIndex(letters, next, j)] {
      DoubledAt(letters, next, j);
    }
    if exists c :: c in letters && c !in used {
      var c :| c in letters && c !in used;
      var i :| 0 <= i < n && letters[i] == c;
      var j := EveryLetterScanned(letters, next, i);
      assert cands[j] !in used;
      assert 0 <= f <= j < n;
      assert forall e :: 0 <= e < f ==> letters[CyclicIndex(letters, next, e)] in used by {
        forall e | 0 <= e < f ensures letters[CyclicIndex(letters, next, e)] in used {
          assert cands[e] in used;
        }
      }
    }
  }

  /**
   * While the counter stays within the letters (as it always does), a letter no record
   * uses is chosen when there is one, and it is the first such letter in cyclic order
   * from the counter; when every letter is used, the letter at the counter is reused.
   */
  lemma TagIndexChoice(used: string, next: nat)
    requires next <= |NORMAL_TAG_LETTERS|
    ensures var k := TagIndex(used, next);
      (exists c :: c in NORMAL_TAG_LETTERS && c !in used) ==>
        && NORMAL_TAG_LETTERS[k] !in used
        && exists d :: 0 <= d < |NORMAL_TAG_LETTERS| && k == CyclicIndex(NORMAL_TAG_LETTERS, next, d)
             && forall e :: 0 <= e < d ==> NORMAL_TAG_LETTERS[CyclicIndex(NORMAL_TAG_LETTERS, next, e)] in used
    ensures (forall c :: c in NORMAL_TAG_LETTERS ==> c in used) ==>
      TagIndex(used, next) == next % |NORMAL_TAG_LETTERS|
  {
    CyclicScan(NORMAL_TAG_LETTERS, used, next);
  }

  // ---------------------------------------------------------------------------
  // the game

  /** `create_game(init_history, init_prop)`: a history and its properties. */
  class Game {
    var history: seq<Stone>
    var props: Props
    /** The properties the game was created with (the closure's `prop`). */
    const createdProps: Props
    const reg: Registry

    /** `create_game`: a missing history is empty; missing properties get a fresh id. */
    constructor (reg: Registry, initHistory: Option<seq<Stone>>, initProp: Option<Props>)
      modifies reg
      ensures this.reg == reg
      ensures initHistory.Some? ==> history == initHistory.value
      ensures initHistory.None? ==> history == []
      ensures initProp.Some? ==> props == initProp.value && reg.nextGameId == old(reg.nextGameId)
      ensures initProp.None? ==> props == DefaultProps(old(reg.nextGameId)) && reg.nextGameId == old(reg.nextGameId) + 1
      ensures createdProps == props && reg.nextTagCount == old(reg.nextTagCount)
    {
      var p: Props;
      if initProp.Some? {
        p := initProp.value;
      } else {
        var id := reg.NewGameId();
        p := DefaultProps(id);
      }
      this.reg := reg;
      history := if initHistory.Some? then initHistory.value else [];
      props := p;
      createdProps := p;
    }

    /** `len()`. */
    function Len(): (n: nat)
      reads this
      ensures n == |history|
    {
      |history|
    }

    /** `is_empty()`. */
    predicate IsEmpty()
      reads this
      ensures IsEmpty() <==> Len() == 0
    {
      history == []
    }

    /** `ref(mc)`: the record of move number `mc` (1-based), or the empty record when there is none. */
    function Ref(mc: int): (r: Option<Stone>)
      reads this
      ensures r.Some? <==> 1 <= mc <= |history|
      ensures r.Some? ==> r.value == history[mc - 1]
    {
      if 1 <= mc <= |history| then Some(history[mc - 1]) else None
    }

    /** `array_until(mc)`: the first `mc` records (all of them when there are fewer). */
    function ArrayUntil(mc: nat): (r: seq<Stone>)
      reads this
      ensures |r| == if mc <= |history| then mc else |history|
      ensures r == history[..|r|]
    {
      if mc <= |history| then history[..mc] else history
    }

    /** `last_move()`: the move of the last record, if any. */
    function LastMove(): (m: Option<string>)
      reads this
      ensures m.Some? <==> history != []
      ensures m.Some? ==> m.value == history[|history| - 1].move
    {
      if history == [] then None else Some(history[|history| - 1].move)
    }

    /** `shorten_to(mc)`: keep the first `mc` records and return the removed ones. */
    method ShortenTo(mc: nat) returns (removed: seq<Stone>)
      modifies this
      ensures history == ArrayUntil(mc) && history == old(ArrayUntil(mc))
      ensures old(history) == history + removed
      ensures props == old(props)
    {
      var keep := if mc <= |history| then mc else |history|;
      removed := history[keep..];
      history := history[..keep];
    }

    /** `push(h)`. */
    method Push(h: Stone)
      modifies this
      ensures history == old(history) + [h] && props == old(props)
    {
      history := history + [h];
    }

    /** `pop()`: the last record, removed, or nothing when the history is empty. */
    method Pop() returns (h: Option<Stone>)
      modifies this
      ensures old(history) == [] ==> h.None? && history == []
      ensures old(history) != [] ==> h == Some(old(history)[|old(history)| - 1]) && history == old(history)[..|old(history)| - 1]
      ensures props == old(props)
    {
      if history == [] {
        h := None;
      } else {
        h := Some(history[|history| - 1]);
        history := history[..|history| - 1];
      }
    }

    /** `set_last_loaded_element()`: remember the last record (none for an empty history). */
    method SetLastLoadedElement()
      modifies this
      ensures history == old(history)
      ensures props == old(props).(lastLoadedElement := if history == [] then None else Some(history[|history| - 1]))
    {
      props := props.(lastLoadedElement := if history == [] then None else Some(history[|history| - 1]));
    }

    /**
     * `set_with_reuse(new_history)`: the history becomes `new_history` in move and colour,
     * keeping the old record objects over the common prefix (they carry analysis results).
     */
    method SetWithReuse(newHistory: seq<Stone>)
      modifies this
      ensures Plays(history) == Plays(newHistory) && |history| == |newHistory|
      ensures var k := CommonHeaderLength(Plays(old(history)), Plays(newHistory));
        history[..k] == old(history)[..k] && history[k..] == newHistory[k..]
      ensures props == old(props)
    {
      var com := CommonHeaderLength(Plays(history), Plays(newHistory));
      ghost var prefix := Plays(history)[..com];
      assert prefix == Plays(history[..com]);
      history := history[..com] + newHistory[com..];
      assert Plays(history) == Plays(newHistory) by {
        forall i | 0 <= i < |newHistory| ensures Plays(history)[i] == Plays(newHistory)[i] {
          if i < com {
            assert Plays(history)[i] == prefix[i];
            assert Plays(newHistory)[..com][i] == Plays(newHistory)[i];
          }
        }
      }
    }

    /** `shallow_copy()`: a new game over a copy of the history, with a new id and no last loaded element. */
    method ShallowCopy() returns (g: Game)
      modifies reg
      ensures fresh(g) && g.reg == reg && g.history == history
      ensures g.props == props.(id := old(reg.nextGameId), lastLoadedElement := None)
      ensures reg.nextGameId == old(reg.nextGameId) + 1 && reg.nextTagCount == old(reg.nextTagCount)
      ensures props.id < old(reg.nextGameId) ==> g.props.id > props.id
    {
      var id := reg.NewGameId();
      g := new Game(reg, Some(history), Some(props.(id := id, lastLoadedElement := None)));
    }

    /** `shallow_copy()` as written: the copy starts from the properties given at creation. */
    method ShallowCopyAsWritten() returns (g: Game)
      modifies reg
      ensures fresh(g) && g.reg == reg && g.history == history
      ensures g.props == createdProps.(id := old(reg.nextGameId), lastLoadedElement := None)
      ensures reg.nextGameId == old(reg.nextGameId) + 1 && reg.nextTagCount == old(reg.nextTagCount)
    {
      var id := reg.NewGameId();
      g := new Game(reg, Some(history), Some(createdProps.(id := id, lastLoadedElement := None)));
    }

    /**
     * `new_tag_maybe(new_sequence_p, move_count)`: a fresh tag for a new sequence; otherwise
     * the last-loaded mark exactly when move `mc` is the last loaded record itself.
     */
    method NewTagMaybe(newSequence: bool, mc: int) returns (tag: Option<char>)
      requires reg.Valid()
      modifies reg
      ensures reg.Valid() && reg.nextGameId == old(reg.nextGameId)
      ensures newSequence ==> tag.Some? && tag.value in NORMAL_TAG_LETTERS
      ensures newSequence ==>
        && tag == Some(NORMAL_TAG_LETTERS[TagIndex(UsedTags(history), old(reg.nextTagCount))])
        && reg.nextTagCount == TagIndex(UsedTags(history), old(reg.nextTagCount)) + 1
      ensures !newSequence ==> reg.nextTagCount == old(reg.nextTagCount)
      ensures !newSequence ==>
        (tag == Some(LAST_LOADED_ELEMENT_TAG_LETTER) <==>
           1 <= mc <= |history| && props.lastLoadedElement == Some(history[mc - 1]))
      ensures !newSequence ==> tag.None? || tag == Some(LAST_LOADED_ELEMENT_TAG_LETTER)
    {
      if newSequence {
        var t := reg.NewTagForGame(this);
        tag := Some(t);
      } else {
        var r := Ref(mc);
        tag := if r.Some? && r == props.lastLoadedElement then Some(LAST_LOADED_ELEMENT_TAG_LETTER) else None;
      }
    }
  }

  /** A copy made as written forgets properties set after creation, such as the players' names. */
  method ShallowCopyLosesPlayerNames() returns (original: Game, copy: Game)
    ensures original.props.playerBlack == "Honinbo" && copy.props.playerBlack == ""
  {
    var reg := new Registry();
    original := new Game(reg, None, None);
    original.props := original.props.(playerBlack := "Honinbo");
    copy := original.ShallowCopyAsWritten();
  }

  /** The corrected copy keeps the current properties, apart from the id and last loaded element. */
  method ShallowCopyKeepsPlayerNames() returns (original: Game, copy: Game)
    ensures original.props.playerBlack == "Honinbo" && copy.props.playerBlack == "Honinbo"
    ensures copy.props.id > original.props.id
  {
    var reg := new Registry();
    original := new Game(reg, None, None);
    original.props := original.props.(playerBlack := "Honinbo");
    copy := original.ShallowCopy();
  }

  // ---------------------------------------------------------------------------
  // SGF game trees

  /** The properties of an SGF node that make moves: setup stones (AB), black (B) and white (W) moves. */
  datatype SgfNode = SgfNode(ab: seq<string>, b: seq<string>, w: seq<string>)

  /** A game tree in the @sabaki/sgf 1.3.1 layout: a run of nodes below an optional parent tree. */
  datatype GameTree = GameTree(nodes: seq<SgfNode>, parent: Option<GameTree>)

  /** A node in the @sabaki/sgf 3.x layout: its properties and its child nodes. */
  datatype TreeNode = TreeNode(data: SgfNode, children: seq<TreeNode>)

  /** One element of a parse result, in either layout. */
  datatype Parsed = V131(tree: GameTree) | V3(node: TreeNode)

  /** The moves that the positions `ps` of one colour give, skipping those whose move is empty. */
  function PositionPlays(ps: seq<string>, isBlack: bool, toMove: string -> string): seq<Play>
    decreases |ps|
  {
    if ps == [] then []
    else
      var init := PositionPlays(ps[..|ps| - 1], isBlack, toMove);
      var m := toMove(ps[|ps| - 1]);
      if m == "" then init else init + [Play(m, isBlack)]
  }

  /** The moves of one node: setup stones, then black, then white. */
  function NodePlays(n: SgfNode, toMove: string -> string): seq<Play>
  {
    PositionPlays(n.ab, true, toMove) + PositionPlays(n.b, true, toMove) + PositionPlays(n.w, false, toMove)
  }

  /** The moves of a run of nodes, node after node. */
  function NodesPlays(nodes: seq<SgfNode>, toMove: string -> string): seq<Play>
    decreases |nodes|
  {
    if nodes == [] then []
    else NodesPlays(nodes[..|nodes| - 1], toMove) + NodePlays(nodes[|nodes| - 1], toMove)
  }

  /** The moves of two runs of nodes are those of the first followed by those of the second. */
  lemma {:induction false} NodesPlaysAppend(xs: seq<SgfNode>, ys: seq<SgfNode>, toMove: string -> string)
    ensures NodesPlays(xs + ys, toMove) == NodesPlays(xs, toMove) + NodesPlays(ys, toMove)
    decreases |ys|
  {
    if ys == [] {
      assert xs + ys == xs;
    } else {
      var ys' := ys[..|ys| - 1];
      var last := NodePlays(ys[|ys| - 1], toMove);
      assert (xs + ys)[..|xs + ys| - 1] == xs + ys';
      assert (xs + ys)[|xs + ys| - 1] == ys[|ys| - 1];
      assert NodesPlays(xs + ys, toMove) == NodesPlays(xs + ys', toMove) + last;
      NodesPlaysAppend(xs, ys', toMove);
      assert NodesPlays(ys, toMove) == NodesPlays(ys', toMove) + last;
      assert NodesPlays(xs, toMove) + NodesPlays(ys', toMove) + last
          == NodesPlays(xs, toMove) + (NodesPlays(ys', toMove) + last);
    }
  }

  /** Record numbering: record `i` carries move count `i + 1`. */
  predicate NumberedFromOne(h: seq<Stone>)
  {
    forall i :: 0 <= i < |h| ==> h[i].moveCount == i + 1
  }

  /** The inner `f(positions, is_black)`: append a record for each position with a move. */
  method AppendPositions(h: seq<Stone>, ps: seq<string>, isBlack: bool, toMove: string -> string)
    returns (h': seq<Stone>)
    requires NumberedFromOne(h)
    ensures NumberedFromOne(h')
    ensures Plays(h') == Plays(h) + PositionPlays(ps, isBlack, toMove)
    ensures forall i :: |h| <= i < |h'| ==> h'[i].tag == ""
    ensures h'[..|h|] == h
  {
    h' := h;
    var i := 0;
    while i < |ps|
      invariant 0 <= i <= |ps|
      invariant NumberedFromOne(h')
      invariant |h'| >= |h| && h'[..|h|] == h
      invariant Plays(h') == Plays(h) + PositionPlays(ps[..i], isBlack, toMove)
      invariant forall j :: |h| <= j < |h'| ==> h'[j].tag == ""
    {
      assert ps[..i + 1][..i] == ps[..i];
      var move := toMove(ps[i]);
      if move != "" {
        var s := new Stone(move, isBlack, |h'| + 1, "");
        PlaysAppend(h', [s]);
        assert (h' + [s])[..|h|] == h'[..|h|];
        h' := h' + [s];
      }
      i := i + 1;
    }
    assert ps[..|ps|] == ps;
  }

  lemma NodesPlaysSnoc(nodes: seq<SgfNode>, i: nat, toMove: string -> string)
    requires i < |nodes|
    ensures NodesPlays(nodes[..i + 1], toMove) == NodesPlays(nodes[..i], toMove) + NodePlays(nodes[i], toMove)
  {
    assert nodes[..i + 1][..i] == nodes[..i];
  }

  lemma TagsKept(h0: seq<Stone>, h1: seq<Stone>, h2: seq<Stone>, h3: seq<Stone>)
    requires forall j :: 0 <= j < |h0| ==> h0[j].tag == ""
    requires |h1| >= |h0| && h1[..|h0|] == h0 && forall j :: |h0| <= j < |h1| ==> h1[j].tag == ""
    requires |h2| >= |h1| && h2[..|h1|] == h1 && forall j :: |h1| <= j < |h2| ==> h2[j].tag == ""
    requires |h3| >= |h2| && h3[..|h2|] == h2 && forall j :: |h2| <= j < |h3| ==> h3[j].tag == ""
    ensures forall j :: 0 <= j < |h3| ==> h3[j].tag == ""
  {
    forall j | 0 <= j < |h3| ensures h3[j].tag == "" {
      if j < |h2| {
        assert h3[j] == h2[j];
        if j < |h1| {
          assert h2[j] == h1[j];
          if j < |h0| {
            assert h1[j] == h0[j];
          }
        }
      }
    }
  }

  /** The body of the node loop: the setup stones, black and white moves of one node. */
  method AppendNode(h: seq<Stone>, node: SgfNode, toMove: string -> string) returns (h': seq<Stone>)
    requires NumberedFromOne(h)
    requires forall j :: 0 <= j < |h| ==> h[j].tag == ""
    ensures NumberedFromOne(h')
    ensures Plays(h') == Plays(h) + NodePlays(node, toMove)
    ensures forall j :: 0 <= j < |h'| ==> h'[j].tag == ""
  {
    var h1 := AppendPositions(h, node.ab, true, toMove);
    var h2 := AppendPositions(h1, node.b, true, toMove);
    h' := AppendPositions(h2, node.w, false, toMove);
    TagsKept(h, h1, h2, h');
    AppendAssoc(Plays(h), PositionPlays(node.ab, true, toMove), PositionPlays(node.b, true, toMove));
    AppendAssoc(Plays(h), PositionPlays(node.ab, true, toMove) + PositionPlays(node.b, true, toMove),
                PositionPlays(node.w, false, toMove));
  }

  /**
   * `history_from_sabaki_nodes(nodes)`: one record per position with a move, setup stones,
   * black and white moves node by node, numbered 1, 2, 3, ... The SGF-position-to-move
   * conversion is the parameter `toMove` (empty text for no move).
   */
  method HistoryFromSabakiNodes(nodes: seq<SgfNode>, toMove: string -> string) returns (h: seq<Stone>)
    ensures Plays(h) == NodesPlays(nodes, toMove)
    ensures NumberedFromOne(h)
    ensures forall i :: 0 <= i < |h| ==> h[i].tag == ""
  {
    h := [];
    var i := 0;
    while i < |nodes|
      invariant 0 <= i <= |nodes|
      invariant Plays(h) == NodesPlays(nodes[..i], toMove)
      invariant NumberedFromOne(h)
      invariant forall j :: 0 <= j < |h| ==> h[j].tag == ""
    {
      NodesPlaysSnoc(nodes, i, toMove);
      h := AppendNode(h, nodes[i], toMove);
      i := i + 1;
    }
    assert nodes[..|nodes|] == nodes;
  }

  /** `nodes_from_sabaki_gametree(gametree)`: the nodes of all ancestors, root first, then the tree's own. */
  function NodesFromSabakiGametree(t: Option<GameTree>): seq<SgfNode>
    decreases t
  {
    match t
    case None => []
    case Some(g) => NodesFromSabakiGametree(g.parent) + g.nodes
  }

  /** Follows `parent` `k` times. */
  function Ancestor(t: Option<GameTree>, k: nat): Option<GameTree>
    decreases k
  {
    if k == 0 then t else match t case None => None case Some(g) => Ancestor(g.parent, k - 1)
  }

  /** The nodes of every ancestor come first, as a prefix, and the tree's own nodes come last. */
  lemma {:induction false} AncestorNodesFirst(t: Option<GameTree>, k: nat)
    ensures var all := NodesFromSabakiGametree(t);
      var up := NodesFromSabakiGametree(Ancestor(t, k));
      |up| <= |all| && all[..|up|] == up
    ensures t.Some? ==> var all := NodesFromSabakiGametree(t);
      |t.value.nodes| <= |all| && all[|all| - |t.value.nodes|..] == t.value.nodes
    decreases k
  {
    match t
    case None =>
    case Some(g) =>
      if k > 0 {
        AncestorNodesFirst(g.parent, k - 1);
        var up := NodesFromSabakiGametree(Ancestor(t, k));
        var mid := NodesFromSabakiGametree(g.parent);
        assert (mid + g.nodes)[..|mid|] == mid;
        assert mid[..|up|] == up;
      }
      var mid := NodesFromSabakiGametree(g.parent);
      assert (mid + g.nodes)[|mid + g.nodes| - |g.nodes|..] == g.nodes;
  }

  /** The nodes along the chain of first children, starting at `n` (the inner `recur`). */
  function FirstChildChain(n: TreeNode): seq<SgfNode>
    decreases n
  {
    [n.data] + (if n.children == [] then [] else FirstChildChain(n.children[0]))
  }

  /** The node reached by `k` steps to the first child, if the chain is that long. */
  function FirstChildAt(n: TreeNode, k: nat): Option<TreeNode>
    decreases k
  {
    if k == 0 then Some(n) else if n.children == [] then None else FirstChildAt(n.children[0], k - 1)
  }

  /** The chain lists, in order, exactly the nodes reachable through first children. */
  lemma {:induction false} FirstChildChainMeaning(n: TreeNode)
    ensures var c := FirstChildChain(n);
      && (forall k :: 0 <= k < |c| ==> FirstChildAt(n, k).Some? && c[k] == FirstChildAt(n, k).value.data)
      && FirstChildAt(n, |c|).None?
    decreases n
  {
    if n.children != [] {
      FirstChildChainMeaning(n.children[0]);
      var c := FirstChildChain(n);
      forall k | 0 < k < |c| ensures FirstChildAt(n, k).Some? && c[k] == FirstChildAt(n, k).value.data {
        assert FirstChildAt(n, k) == FirstChildAt(n.children[0], k - 1);
      }
    }
  }

  /**
   * `convert_to_sabaki_sgf_v131_maybe(parsed)`: nothing for an empty parse, the parse itself
   * when it is in the 1.3.1 layout, and otherwise one parentless tree holding the nodes along
   * the first-child chain of the first root.
   */
  function ConvertToSabakiSgfV131Maybe(parsed: seq<Parsed>): (r: Option<seq<Parsed>>)
    ensures parsed == [] <==> r.None?
    ensures parsed != [] && parsed[0].V131? ==> r == Some(parsed)
    ensures parsed != [] && parsed[0].V3? ==>
      r == Some([V131(GameTree(FirstChildChain(parsed[0].node), None))])
  {
    if parsed == [] then None
    else if parsed[0].V131? then Some(parsed)
    else Some([V131(GameTree(FirstChildChain(parsed[0].node), None))])
  }
}
