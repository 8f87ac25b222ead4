/** Where loops go back to.  Command numbers and byte offsets are two ways of naming positions
    in the same script; every command treats them alike. */
module LoopOffsets {
  import opened ParserState
  import opened FlatMachine

  predicate IsLoopHead(words: seq<Token>) {
    words != [] && (words[0] == While || words[0] == Until)
  }

  // ----- What a loop keyword does, and to what -----

  datatype Move = Stay | StartOver | Open(state: LoopState) | Mark | Close

  /** What a loop keyword decides, from the little it looks at. */
  datatype Decision = Decision(move: Move, words: seq<Token>, error: Error)

  function Decide(words: seq<Token>, state: LoopState, waiting: bool, readable: bool, full: bool,
                  inLoop: bool): Decision {
    if words == [] then Decision(Stay, words, NoError)
    else
      var rest := words[1..];
      match words[0]
      case While | Until =>
        if rest == [] || rest[0] == Word("") then Decision(StartOver, rest, BadArgument)
        else if waiting || AwaitsDo(state) || !readable then Decision(StartOver, rest, BadContext)
        else if full then Decision(StartOver, rest, TooDeep)
        else Decision(Open(if words[0] == While then LoopWhile else LoopUntil), rest, NoError)
      case Do =>
        if AwaitsDo(state) then Decision(Mark, rest, NoError) else Decision(StartOver, rest, BadContext)
      case Done =>
        if rest != [] then Decision(StartOver, rest, BadArgument)
        else if state != LoopDo then Decision(StartOver, rest, BadContext)
        else if !inLoop then Decision(StartOver, rest, Internal)
        else Decision(Close, rest, NoError)
      case _ =>
        if AwaitsDo(state) then Decision(StartOver, words, BadContext) else Decision(Stay, words, NoError)
  }

  function DecisionOf(np: Parser, words: seq<Token>): (d: Decision)
    requires Shape(np)
    ensures d.move.Open? ==> IsLoopHead(words) && !Full(np.lp) && d.error == NoError
    ensures IsLoopHead(words) ==> d.move.Open? || (d.move == StartOver && d.error != NoError)
    ensures d.move == Close ==> 0 < np.lp.ndx && d.error == NoError && d.words == []
  {
    Decide(words, Top(np.lp).state, Top(np.ie).state == ItefIf, np.at.stream && np.at.foffs >= 0, Full(np.lp),
           0 < np.lp.ndx)
  }

  function Act(np: Parser, move: Move): Parser
    requires Shape(np) && (move.Open? ==> !Full(np.lp)) && (move == Close ==> 0 < np.lp.ndx)
  {
    match move
    case Stay => np
    case StartOver => LoopReset(np)
    case Open(state) => LoopPush(np, state)
    case Mark => SetLoopState(np, LoopDo)
    case Close => LoopPop(np)
  }

  lemma StageDecides(np: Parser, words: seq<Token>)
    requires Shape(np)
    ensures var d := DecisionOf(np, words);
            LoopStage(np, words) == Staged(Act(np, d.move), d.words, d.error)
  {
    hide LoopReset, LoopPush, LoopPop, SetLoopState, Shape;
  }

  // ----- On command numbers: a loop level remembers its own head -----

  /** Every live loop level was pushed by the loop head at the position it remembers. */
  ghost predicate HeadsKnown(prog: seq<Item>, lp: Stack<LoopLevel>) {
    && InRange(lp)
    && forall k | 0 < k <= lp.ndx ::
         0 <= lp.levels[k].topoffs < |prog| && IsLoopHead(prog[lp.levels[k].topoffs].words)
  }

  lemma PushKeepsHeads(prog: seq<Item>, lp: Stack<LoopLevel>, level: LoopLevel)
    requires HeadsKnown(prog, lp) && !Full(lp)
    requires 0 <= level.topoffs < |prog| && IsLoopHead(prog[level.topoffs].words)
    ensures HeadsKnown(prog, Push(lp, level))
  {
  }

  /** Changing the top level without its position, closing it, or starting over. */
  lemma UpdateKeepsHeads(prog: seq<Item>, lp: Stack<LoopLevel>, level: LoopLevel)
    requires HeadsKnown(prog, lp)
    ensures level.topoffs == Top(lp).topoffs ==> HeadsKnown(prog, SetTop(lp, level))
    ensures 0 < lp.ndx ==> HeadsKnown(prog, SetTop(lp, level).(ndx := lp.ndx - 1))
    ensures HeadsKnown(prog, Reset(lp, level))
  {
  }

  lemma StageKeepsHeads(prog: seq<Item>, np: Parser, words: seq<Token>)
    requires Shape(np) && HeadsKnown(prog, np.lp)
    requires 0 <= np.at.foffs + np.at.loffs < |prog| && prog[np.at.foffs + np.at.loffs].words == words
    ensures var r := LoopStage(np, words);
            && HeadsKnown(prog, r.np.lp)
            && (r.np.at.jump && !np.at.jump ==> 0 <= r.np.at.pos < |prog| && IsLoopHead(prog[r.np.at.pos].words))
            && (!r.np.at.jump ==> r.np.at.pos == np.at.pos)
  {
    hide LoopStage, DecisionOf;
    StageDecides(np, words);
    ActKeepsHeads(prog, np, DecisionOf(np, words).move);
  }

  lemma ActKeepsHeads(prog: seq<Item>, np: Parser, move: Move)
    requires Shape(np) && HeadsKnown(prog, np.lp)
    requires move.Open? ==> !Full(np.lp)
    requires move == Close ==> 0 < np.lp.ndx
    requires move.Open? ==> 0 <= np.at.foffs + np.at.loffs < |prog| && IsLoopHead(prog[np.at.foffs + np.at.loffs].words)
    ensures var r := Act(np, move);
            && HeadsKnown(prog, r.lp)
            && (r.at.jump && !np.at.jump ==> 0 <= r.at.pos < |prog| && IsLoopHead(prog[r.at.pos].words))
            && (!r.at.jump ==> r.at.pos == np.at.pos)
  {
    hide HeadsKnown, CmdEnabled, SetTop, Push, Reset;
    var top := Top(np.lp);
    match move
    case Stay =>
    case StartOver => UpdateKeepsHeads(prog, np.lp, LoopLevel(LoopNormal, true, np.lp.levels[0].iendx, 0));
    case Open(state) =>
      PushKeepsHeads(prog, np.lp, LoopLevel(state, CmdEnabled(np), np.ie.ndx, np.at.foffs + np.at.loffs));
    case Mark => UpdateKeepsHeads(prog, np.lp, top.(state := LoopDo));
    case Close =>
      UpdateKeepsHeads(prog, np.lp, top.(state := LoopNormal, enable := true));
      TopIsHead(prog, np.lp);
  }

  lemma TopIsHead(prog: seq<Item>, lp: Stack<LoopLevel>)
    requires HeadsKnown(prog, lp) && InRange(lp)
    ensures 0 < lp.ndx ==> 0 <= Top(lp).topoffs < |prog| && IsLoopHead(prog[Top(lp).topoffs].words)
  {
  }

  lemma SaveKeepsHeads(prog: seq<Item>, np: Parser, failed: bool)
    requires Shape(np) && HeadsKnown(prog, np.lp)
    ensures HeadsKnown(prog, SaveResult(np, failed).np.lp) && SaveResult(np, failed).np.at == np.at
  {
  }

  lemma ExecuteKeepsHeads(w: World, prog: seq<Item>, np: Parser, h: History, words: seq<Token>)
    requires Shape(np) && HeadsKnown(prog, np.lp) && words != []
    ensures HeadsKnown(prog, Execute(w, np, h, words).np.lp) && Execute(w, np, h, words).np.at == np.at
  {
    hide SaveResult;
    SaveKeepsHeads(prog, BreakLoop(np), false);
    SaveKeepsHeads(prog, np, w.fails(h + [Event(words, np.fail)]));
  }

  lemma ItefKeepsRest(np: Parser, words: seq<Token>)
    requires Shape(np)
    ensures ItefStage(np, words).np.lp == np.lp && ItefStage(np, words).np.at == np.at
  {
  }

  /** After any command, well formed or not, every live loop level still remembers its head,
      and a jump leads to a loop head. */
  lemma CommandKeepsHeads(w: World, prog: seq<Item>, np: Parser, h: History, words: seq<Token>)
    requires Shape(np) && HeadsKnown(prog, np.lp) && !np.at.jump
    requires 0 <= np.at.foffs + np.at.loffs < |prog| && prog[np.at.foffs + np.at.loffs].words == words
    ensures var r := ParseCommand(w, np, h, words);
            && HeadsKnown(prog, r.np.lp)
            && (r.np.at.jump ==> 0 <= r.np.at.pos < |prog| && IsLoopHead(prog[r.np.at.pos].words))
            && (!r.np.at.jump ==> r.np.at.pos == np.at.pos)
  {
    hide LoopStage, ItefStage, Execute, SaveResult, HeadsKnown;
    StageKeepsHeads(prog, np, words);
    var loop := LoopStage(np, words);
    SaveKeepsHeads(prog, loop.np, true);
    ItefKeepsRest(loop.np, loop.words);
    var itef := ItefStage(loop.np, loop.words);
    HeadsDependOnLoops(prog, loop.np, itef.np);
    SaveKeepsHeads(prog, itef.np, true);
    if itef.words != [] {
      ExecuteKeepsHeads(w, prog, itef.np, h, itef.words);
    }
  }

  lemma HeadsDependOnLoops(prog: seq<Item>, a: Parser, b: Parser)
    requires HeadsKnown(prog, a.lp) && a.lp == b.lp
    ensures HeadsKnown(prog, b.lp)
  {
  }

  lemma StageJumps(np: Parser, words: seq<Token>)
    requires Shape(np) && !np.at.jump
    ensures LoopStage(np, words).np.at.jump ==>
              LoopStage(np, words).error == NoError && LoopStage(np, words).words == []
  {
    hide LoopStage, DecisionOf;
    StageDecides(np, words);
  }

  /** Only a command that succeeds jumps. */
  lemma FailureDoesNotJump(w: World, np: Parser, h: History, words: seq<Token>)
    requires Shape(np) && !np.at.jump
    ensures ParseCommand(w, np, h, words).np.at.jump ==> ParseCommand(w, np, h, words).ok
  {
    hide LoopStage, ItefStage, Execute, CmdEnabled;
    StageJumps(np, words);
    var loop := LoopStage(np, words);
    ItefKeepsRest(loop.np, loop.words);
    if loop.words == [] && loop.error == NoError {
      assert ItefStage(loop.np, []) == Staged(loop.np, [], NoError) by {
        ItefStageNoWords(loop.np);
      }
    }
    var itef := ItefStage(loop.np, loop.words);
    if itef.words != [] {
      ExecuteStays(w, itef.np, h, itef.words);
    }
  }

  lemma ItefStageNoWords(np: Parser)
    requires Shape(np)
    ensures ItefStage(np, []) == Staged(np, [], NoError)
  {
  }

  lemma ExecuteStays(w: World, np: Parser, h: History, words: seq<Token>)
    requires Shape(np) && words != []
    ensures Execute(w, np, h, words).np.at == np.at
  {
  }

  /** The levels of both stacks are numbered alike and remember the same positions. */
  predicate SamePositions(a: Stack<LoopLevel>, b: Stack<LoopLevel>) {
    && a.ndx == b.ndx && |a.levels| == |b.levels|
    && forall k | 0 <= k < |a.levels| :: a.levels[k].topoffs == b.levels[k].topoffs
  }

  lemma SaveKeepsPositions(np: Parser, failed: bool)
    requires Shape(np)
    ensures SamePositions(np.lp, SaveResult(np, failed).np.lp)
  {
  }

  lemma BreakKeepsPositions(np: Parser)
    requires Shape(np)
    ensures SamePositions(np.lp, BreakLoop(np).lp)
  {
  }

  lemma ExecuteKeepsPositions(w: World, np: Parser, h: History, words: seq<Token>)
    requires Shape(np) && words != []
    ensures SamePositions(np.lp, Execute(w, np, h, words).np.lp)
  {
    hide SaveResult, BreakLoop;
    BreakKeepsPositions(np);
    SaveKeepsPositions(BreakLoop(np), false);
    SaveKeepsPositions(np, w.fails(h + [Event(words, np.fail)]));
  }

  lemma StagePushesPosition(np: Parser, words: seq<Token>)
    requires Shape(np) && IsLoopHead(words)
    ensures var r := LoopStage(np, words);
            if r.error == NoError then r.np.lp.ndx == np.lp.ndx + 1 && Top(r.np.lp).topoffs == np.at.foffs + np.at.loffs
            else r.np.lp.ndx == 0
  {
    hide CmdEnabled, LoopStage, DecisionOf;
    StageDecides(np, words);
  }

  /** A loop head that pushes a level makes it remember the offset of the head itself. */
  lemma HeadRemembersItself(w: World, np: Parser, h: History, words: seq<Token>)
    requires Shape(np) && IsLoopHead(words) && ParseCommand(w, np, h, words).np.lp.ndx > np.lp.ndx
    ensures Top(ParseCommand(w, np, h, words).np.lp).topoffs == np.at.foffs + np.at.loffs
  {
    hide LoopStage, ItefStage, Execute, CmdEnabled, SaveResult, SamePositions;
    StagePushesPosition(np, words);
    var loop := LoopStage(np, words);
    ItefKeepsRest(loop.np, loop.words);
    var itef := ItefStage(loop.np, loop.words);
    SaveKeepsPositions(loop.np, true);
    SameTop(loop.np.lp, SaveResult(loop.np, true).np.lp);
    SaveKeepsPositions(itef.np, true);
    SameTop(itef.np.lp, SaveResult(itef.np, true).np.lp);
    if itef.words != [] {
      ExecuteKeepsPositions(w, itef.np, h, itef.words);
      SameTop(itef.np.lp, Execute(w, itef.np, h, itef.words).np.lp);
    }
  }

  lemma SameTop(a: Stack<LoopLevel>, b: Stack<LoopLevel>)
    requires SamePositions(a, b) && InRange(a)
    ensures InRange(b) && a.ndx == b.ndx && Top(a).topoffs == Top(b).topoffs
  {
  }

  lemma ActKeepsPositions(np: Parser, move: Move, k: nat)
    requires Shape(np) && (move.Open? ==> !Full(np.lp)) && (move == Close ==> 0 < np.lp.ndx)
    requires 0 < k <= np.lp.ndx
    ensures |Act(np, move).lp.levels| == |np.lp.levels|
    ensures Act(np, move).lp.levels[k].topoffs == np.lp.levels[k].topoffs
  {
  }

  /** From the command that opens a loop level to the `done` that closes it, no command, however
      misplaced, changes the position that the level remembers. */
  lemma CommandKeepsPositions(w: World, np: Parser, h: History, words: seq<Token>, k: nat)
    requires Shape(np) && 0 < k <= np.lp.ndx
    ensures ParseCommand(w, np, h, words).np.lp.levels[k].topoffs == np.lp.levels[k].topoffs
  {
    hide LoopStage, ItefStage, Execute, SaveResult, CmdEnabled, Act, DecisionOf, SamePositions;
    StageDecides(np, words);
    ActKeepsPositions(np, DecisionOf(np, words).move, k);
    var loop := LoopStage(np, words);
    ItefKeepsRest(loop.np, loop.words);
    var itef := ItefStage(loop.np, loop.words);
    SaveKeepsPositions(loop.np, true);
    SameAt(loop.np.lp, SaveResult(loop.np, true).np.lp, k);
    SaveKeepsPositions(itef.np, true);
    SameAt(itef.np.lp, SaveResult(itef.np, true).np.lp, k);
    if itef.words != [] {
      ExecuteKeepsPositions(w, itef.np, h, itef.words);
      SameAt(itef.np.lp, Execute(w, itef.np, h, itef.words).np.lp, k);
    }
  }

  lemma SameAt(a: Stack<LoopLevel>, b: Stack<LoopLevel>, k: nat)
    requires SamePositions(a, b) && k < |a.levels|
    ensures k < |b.levels| && a.levels[k].topoffs == b.levels[k].topoffs
  {
  }

  /** A jump is made by the `done` of the innermost loop, while that loop is enabled, to the
      position its level remembers, and closes that level. */
  lemma JumpGoesToClosedLevel(w: World, np: Parser, h: History, words: seq<Token>)
    requires Shape(np) && !np.at.jump && ParseCommand(w, np, h, words).np.at.jump
    ensures words == [Done] && 0 < np.lp.ndx && Top(np.lp).state == LoopDo && Top(np.lp).enable
    ensures ParseCommand(w, np, h, words).np.at.pos == Top(np.lp).topoffs
    ensures ParseCommand(w, np, h, words).np.lp.ndx == np.lp.ndx - 1
  {
    hide LoopStage, ItefStage, Execute, CmdEnabled, DecisionOf;
    StageDecides(np, words);
    var loop := LoopStage(np, words);
    ItefKeepsRest(loop.np, loop.words);
    var itef := ItefStage(loop.np, loop.words);
    if itef.words != [] {
      ExecuteStays(w, itef.np, h, itef.words);
    }
    assert loop.np.at.jump;
    assert DecisionOf(np, words).move == Close;
    CloseIsDone(np, words);
    ItefStageNoWords(loop.np);
  }

  lemma CloseIsDone(np: Parser, words: seq<Token>)
    requires Shape(np) && DecisionOf(np, words).move == Close
    ensures words == [Done] && Top(np.lp).state == LoopDo
  {
    assert words == [words[0]] + words[1..];
  }

  // ----- Who opened a loop level, over whole runs -----

  lemma StageOpens(np: Parser, words: seq<Token>)
    requires Shape(np)
    ensures var r := LoopStage(np, words);
            r.np.lp.ndx <= np.lp.ndx || (r.np.lp.ndx == np.lp.ndx + 1 && IsLoopHead(words))
  {
    hide LoopStage, DecisionOf, CmdEnabled;
    StageDecides(np, words);
  }

  /** Only a loop head opens a loop level, and only one. */
  lemma OnlyHeadsOpen(w: World, np: Parser, h: History, words: seq<Token>)
    requires Shape(np)
    ensures var r := ParseCommand(w, np, h, words);
            r.np.lp.ndx <= np.lp.ndx || (r.np.lp.ndx == np.lp.ndx + 1 && IsLoopHead(words))
  {
    hide LoopStage, ItefStage, Execute, CmdEnabled, SaveResult, SamePositions;
    StageOpens(np, words);
    var loop := LoopStage(np, words);
    ItefKeepsRest(loop.np, loop.words);
    var itef := ItefStage(loop.np, loop.words);
    SaveKeepsPositions(loop.np, true);
    SameTop(loop.np.lp, SaveResult(loop.np, true).np.lp);
    SaveKeepsPositions(itef.np, true);
    SameTop(itef.np.lp, SaveResult(itef.np, true).np.lp);
    if itef.words != [] {
      ExecuteKeepsPositions(w, itef.np, h, itef.words);
      SameTop(itef.np.lp, Execute(w, itef.np, h, itef.words).np.lp);
    }
  }

  /** In the run of m, step j runs a loop head that opens loop level k, and the level is live from
      then on until after step n. */
  ghost predicate OpenedAt(w: World, prog: seq<Item>, m: Machine, n: nat, k: nat, j: nat)
    requires Shape(m.np)
  {
    && j < n && !Halted(prog, Run(w, prog, m, j))
    && IsLoopHead(prog[Run(w, prog, m, j).pc].words)
    && Run(w, prog, m, j).np.lp.ndx + 1 == k
    && forall x: nat | j < x <= n :: k <= Run(w, prog, m, x).np.lp.ndx
  }

  /** What one step does to the position that level k remembers. */
  lemma StepKeepsPosition(w: World, prog: seq<Item>, m: Machine, k: nat)
    requires Shape(m.np) && 0 < k <= Step(w, prog, m).np.lp.ndx
    ensures if k <= m.np.lp.ndx then Step(w, prog, m).np.lp.levels[k].topoffs == m.np.lp.levels[k].topoffs
            else
              && k == m.np.lp.ndx + 1 && !Halted(prog, m) && IsLoopHead(prog[m.pc].words)
              && Step(w, prog, m).np.lp.levels[k].topoffs == m.pc
  {
    hide ParseCommand;
    if !Halted(prog, m) {
      var words := prog[m.pc].words;
      OnlyHeadsOpen(w, Entering(m), m.history, words);
      if k <= m.np.lp.ndx {
        CommandKeepsPositions(w, Entering(m), m.history, words, k);
      } else {
        HeadRemembersItself(w, Entering(m), m.history, words);
      }
    }
  }

  /** After any number of steps of any script, well formed or not, every loop level opened since
      remembers the position of the very command that opened it. */
  lemma {:induction false} LevelHasOpener(w: World, prog: seq<Item>, m: Machine, n: nat, k: nat) returns (j: nat)
    requires Shape(m.np) && m.np.lp.ndx < k <= Run(w, prog, m, n).np.lp.ndx
    ensures OpenedAt(w, prog, m, n, k, j)
    ensures Run(w, prog, m, n).np.lp.levels[k].topoffs == Run(w, prog, m, j).pc
  {
    hide Step, Run, IsLoopHead;
    if n == 0 {
      RunZero(w, prog, m);
    } else {
      var before := Run(w, prog, m, n - 1);
      RunThenStep(w, prog, m, n - 1);
      StepKeepsPosition(w, prog, before, k);
      if k <= before.np.lp.ndx {
        j := LevelHasOpener(w, prog, m, n - 1, k);
      } else {
        j := n - 1;
      }
    }
  }

  /** The command after n steps jumps. */
  predicate Jumps(w: World, prog: seq<Item>, m: Machine)
    requires Shape(m.np)
  {
    !Halted(prog, m) && ParseCommand(w, Entering(m), m.history, prog[m.pc].words).np.at.jump
  }

  /** When `done` jumps, in any run of any script, the machine goes back to the very loop head that
      opened the level which the `done` closes. */
  lemma JumpReturnsToOpener(w: World, prog: seq<Item>, m: Machine, n: nat) returns (j: nat)
    requires Shape(m.np) && m.np.lp.ndx == 0 && Jumps(w, prog, Run(w, prog, m, n))
    ensures OpenedAt(w, prog, m, n, Run(w, prog, m, n).np.lp.ndx, j)
    ensures Run(w, prog, m, n + 1).np.lp.ndx + 1 == Run(w, prog, m, n).np.lp.ndx
    ensures Run(w, prog, m, n + 1).pc == Run(w, prog, m, j).pc
  {
    hide ParseCommand, Run, OpenedAt;
    var now := Run(w, prog, m, n);
    JumpGoesToClosedLevel(w, Entering(now), now.history, prog[now.pc].words);
    FailureDoesNotJump(w, Entering(now), now.history, prog[now.pc].words);
    RunThenStep(w, prog, m, n);
    j := LevelHasOpener(w, prog, m, n, now.np.lp.ndx);
  }

  // ----- Renaming positions -----

  /** A renaming of the positions 0..n, given as a list.  Negative positions stand for offsets
      that stale loop levels may still hold from earlier scripts. */
  type Renaming = seq<int>

  function Rename(off: Renaming, x: int): int {
    if 0 <= x < |off| then off[x] else if x < 0 then -1 - x else x
  }

  function RenameLevel(off: Renaming, l: LoopLevel): LoopLevel {
    l.(topoffs := Rename(off, l.topoffs))
  }

  function RenameStack(off: Renaming, s: Stack<LoopLevel>): (r: Stack<LoopLevel>)
    ensures r.ndx == s.ndx && |r.levels| == |s.levels|
    ensures forall k | 0 <= k < |s.levels| :: r.levels[k] == RenameLevel(off, s.levels[k])
  {
    Stack(s.ndx, seq(|s.levels|, k requires 0 <= k < |s.levels| => RenameLevel(off, s.levels[k])))
  }

  function RenameParser(off: Renaming, np: Parser): (r: Parser)
    ensures Shape(np) ==> Shape(r)
  {
    var r := np.(lp := RenameStack(off, np.lp));
    assert Shape(np) ==> forall level | level in r.lp.levels :: level.iendx < |r.ie.levels| by {
      if Shape(np) {
        forall level | level in r.lp.levels
          ensures level.iendx < |r.ie.levels|
        {
          var k :| 0 <= k < |r.lp.levels| && r.lp.levels[k] == level;
          assert np.lp.levels[k] in np.lp.levels;
        }
      }
    }
    r
  }

  /** Parser b is parser a with its positions renamed; the cursors may differ. */
  predicate Renamed(off: Renaming, a: Parser, b: Parser) {
    b == RenameParser(off, a).(at := b.at)
  }

  lemma RenamedCursor(off: Renaming, a: Parser, b: Parser, atA: Cursor, atB: Cursor)
    requires Renamed(off, a, b)
    ensures Renamed(off, a.(at := atA), b.(at := atB)) && a.fail == b.fail
    ensures Shape(a) ==> Shape(a.(at := atA))
    ensures Shape(b) ==> Shape(b.(at := atB))
  {
  }

  lemma RenameSetTop(off: Renaming, s: Stack<LoopLevel>, level: LoopLevel)
    requires InRange(s)
    ensures RenameStack(off, SetTop(s, level)) == SetTop(RenameStack(off, s), RenameLevel(off, level))
  {
  }

  lemma RenamePush(off: Renaming, s: Stack<LoopLevel>, level: LoopLevel)
    requires !Full(s)
    ensures RenameStack(off, Push(s, level)) == Push(RenameStack(off, s), RenameLevel(off, level))
  {
  }

  lemma RenameReset(off: Renaming, s: Stack<LoopLevel>, level: LoopLevel)
    requires InRange(s)
    ensures RenameStack(off, Reset(s, level)) == Reset(RenameStack(off, s), RenameLevel(off, level))
  {
  }

  /** The two cursors name the same position, as far as this command can see. */
  predicate SamePlace(off: Renaming, a: Cursor, b: Cursor, words: seq<Token>) {
    && a.stream == b.stream && a.foffs >= 0 && b.foffs >= 0 && !a.jump && !b.jump
    && (IsLoopHead(words) ==> b.foffs + b.loffs == Rename(off, a.foffs + a.loffs))
  }

  /** The two cursors end alike: both jumped to the same place, or neither moved. */
  predicate SameMove(off: Renaming, a: Cursor, b: Cursor, a': Cursor, b': Cursor) {
    && a' == a.(jump := a'.jump, pos := a'.pos)
    && b' == b.(jump := b'.jump, pos := b'.pos)
    && a'.jump == b'.jump
    && (a'.jump ==> b'.pos == Rename(off, a'.pos))
    && (!a'.jump ==> a'.pos == a.pos && b'.pos == b.pos)
  }

  lemma EnabledRenames(off: Renaming, a: Parser, b: Parser)
    requires Shape(a) && Shape(b) && Renamed(off, a, b)
    ensures CmdEnabled(a) == CmdEnabled(b)
  {
  }

  lemma LoopResetRenames(off: Renaming, a: Parser, b: Parser)
    requires Shape(a) && Shape(b) && Renamed(off, a, b) && |off| > 0 && off[0] == 0
    ensures Renamed(off, LoopReset(a), LoopReset(b))
    ensures LoopReset(a).at == a.at.(jump := false) && LoopReset(b).at == b.at.(jump := false)
  {
    RenameReset(off, a.lp, LoopLevel(LoopNormal, true, a.lp.levels[0].iendx, 0));
  }

  lemma LoopPushRenames(off: Renaming, a: Parser, b: Parser, state: LoopState)
    requires Shape(a) && Shape(b) && Renamed(off, a, b) && !Full(a.lp)
    requires b.at.foffs + b.at.loffs == Rename(off, a.at.foffs + a.at.loffs)
    ensures Renamed(off, LoopPush(a, state), LoopPush(b, state))
    ensures LoopPush(a, state).at == a.at.(jump := false) && LoopPush(b, state).at == b.at.(jump := false)
  {
    hide CmdEnabled;
    EnabledRenames(off, a, b);
    RenamePush(off, a.lp, LoopLevel(state, CmdEnabled(a), a.ie.ndx, a.at.foffs + a.at.loffs));
  }

  lemma LoopPopRenames(off: Renaming, a: Parser, b: Parser)
    requires Shape(a) && Shape(b) && Renamed(off, a, b) && 0 < a.lp.ndx && !a.at.jump && !b.at.jump
    ensures Renamed(off, LoopPop(a), LoopPop(b))
    ensures SameMove(off, a.at, b.at, LoopPop(a).at, LoopPop(b).at)
  {
    RenameSetTop(off, a.lp, Top(a.lp).(state := LoopNormal, enable := true));
  }

  lemma SetLoopStateRenames(off: Renaming, a: Parser, b: Parser, state: LoopState)
    requires Shape(a) && Shape(b) && Renamed(off, a, b)
    ensures Renamed(off, SetLoopState(a, state), SetLoopState(b, state))
    ensures SetLoopState(a, state).at == a.at && SetLoopState(b, state).at == b.at
  {
    RenameSetTop(off, a.lp, Top(a.lp).(state := state));
  }

  lemma LoopStageRenames(off: Renaming, a: Parser, b: Parser, words: seq<Token>)
    requires Shape(a) && Shape(b) && Renamed(off, a, b) && SamePlace(off, a.at, b.at, words)
    requires |off| > 0 && off[0] == 0
    ensures var ra := LoopStage(a, words);
            var rb := LoopStage(b, words);
            && Renamed(off, ra.np, rb.np) && ra.words == rb.words && ra.error == rb.error
            && SameMove(off, a.at, b.at, ra.np.at, rb.np.at)
  {
    hide LoopStage, Renamed, Shape, Decide;
    TopRenames(off, a, b);
    StageDecides(a, words);
    StageDecides(b, words);
    assert DecisionOf(a, words) == DecisionOf(b, words);
    ActRenames(off, a, b, DecisionOf(a, words).move);
  }

  lemma ActRenames(off: Renaming, a: Parser, b: Parser, move: Move)
    requires Shape(a) && Shape(b) && Renamed(off, a, b) && |off| > 0 && off[0] == 0
    requires move.Open? ==>
               !Full(a.lp) && !Full(b.lp) && b.at.foffs + b.at.loffs == Rename(off, a.at.foffs + a.at.loffs)
    requires move == Close ==> 0 < a.lp.ndx && 0 < b.lp.ndx
    requires !a.at.jump && !b.at.jump
    ensures Renamed(off, Act(a, move), Act(b, move))
    ensures SameMove(off, a.at, b.at, Act(a, move).at, Act(b, move).at)
  {
    hide LoopReset, LoopPush, LoopPop, SetLoopState, Renamed, Shape;
    match move
    case Stay =>
    case StartOver => LoopResetRenames(off, a, b);
    case Open(state) => LoopPushRenames(off, a, b, state);
    case Mark => SetLoopStateRenames(off, a, b, LoopDo);
    case Close => LoopPopRenames(off, a, b);
  }

  /** What the stages look at is not renamed. */
  lemma TopRenames(off: Renaming, a: Parser, b: Parser)
    requires Shape(a) && Shape(b) && Renamed(off, a, b)
    ensures a.fail == b.fail && a.ie == b.ie && a.lp.ndx == b.lp.ndx && |a.lp.levels| == |b.lp.levels|
    ensures Top(b.lp) == RenameLevel(off, Top(a.lp))
    ensures CmdEnabled(a) == CmdEnabled(b)
  {
  }

  /** Any change to the if stack alone keeps the renaming. */
  lemma ItefUpdateRenames(off: Renaming, a: Parser, b: Parser, ie: Stack<ItefLevel>)
    requires Renamed(off, a, b)
    ensures Renamed(off, a.(ie := ie), b.(ie := ie))
  {
  }

  lemma ItefStageDepends(a: Parser, words: seq<Token>)
    requires Shape(a)
    ensures ItefStage(a, words).np == a.(ie := ItefStage(a, words).np.ie)
  {
  }

  lemma IfStageSame(a: Parser, b: Parser, cond: seq<Token>, inverted: bool)
    requires Shape(a) && Shape(b) && a.ie == b.ie && CmdEnabled(a) == CmdEnabled(b)
    ensures var ra := IfStage(a, cond, inverted);
            var rb := IfStage(b, cond, inverted);
            ra.words == rb.words && ra.error == rb.error && ra.np.ie == rb.np.ie
  {
    hide CmdEnabled, Shape;
  }

  lemma ItefStageSame(a: Parser, b: Parser, words: seq<Token>)
    requires Shape(a) && Shape(b) && a.ie == b.ie && CmdEnabled(a) == CmdEnabled(b)
    ensures var ra := ItefStage(a, words);
            var rb := ItefStage(b, words);
            ra.words == rb.words && ra.error == rb.error && ra.np.ie == rb.np.ie
  {
    hide CmdEnabled, Shape, IfStage, SetTop, Reset, Top;
    if words != [] && words[0] == If {
      var rest := words[1..];
      if rest != [] && rest[0] == Bang {
        IfStageSame(a, b, rest[1..], true);
      } else {
        IfStageSame(a, b, rest, false);
      }
    }
  }

  lemma ItefStageRenames(off: Renaming, a: Parser, b: Parser, words: seq<Token>)
    requires Shape(a) && Shape(b) && Renamed(off, a, b)
    ensures var ra := ItefStage(a, words);
            var rb := ItefStage(b, words);
            && Renamed(off, ra.np, rb.np) && ra.words == rb.words && ra.error == rb.error
            && ra.np.at == a.at && rb.np.at == b.at
  {
    hide ItefStage, Renamed, Shape, CmdEnabled;
    TopRenames(off, a, b);
    ItefStageDepends(a, words);
    ItefStageDepends(b, words);
    ItefStageSame(a, b, words);
    ItefUpdateRenames(off, a, b, ItefStage(a, words).np.ie);
  }

  lemma SaveRenames(off: Renaming, a: Parser, b: Parser, failed: bool)
    requires Shape(a) && Shape(b) && Renamed(off, a, b)
    ensures var ra := SaveResult(a, failed);
            var rb := SaveResult(b, failed);
            && Renamed(off, ra.np, rb.np) && ra.ok == rb.ok
            && ra.np.at == a.at && rb.np.at == b.at
  {
    RenameSetTop(off, a.lp, Top(a.lp).(enable := failed));
    RenameSetTop(off, a.lp, Top(a.lp).(enable := !failed));
  }

  lemma BreakRenames(off: Renaming, a: Parser, b: Parser)
    requires Shape(a) && Shape(b) && Renamed(off, a, b)
    ensures Renamed(off, BreakLoop(a), BreakLoop(b)) && BreakLoop(a).at == a.at && BreakLoop(b).at == b.at
  {
    RenameSetTop(off, a.lp, Top(a.lp).(enable := false));
  }

  lemma ExecuteRenames(w: World, off: Renaming, a: Parser, b: Parser, h: History, words: seq<Token>)
    requires Shape(a) && Shape(b) && Renamed(off, a, b) && words != []
    ensures var ra := Execute(w, a, h, words);
            var rb := Execute(w, b, h, words);
            && Renamed(off, ra.np, rb.np) && ra.history == rb.history && ra.ok == rb.ok
            && ra.np.at == a.at && rb.np.at == b.at
  {
    hide SaveResult, BreakLoop;
    BreakRenames(off, a, b);
    SaveRenames(off, BreakLoop(a), BreakLoop(b), false);
    SaveRenames(off, a, b, w.fails(h + [Event(words, a.fail)]));
  }

  /** A command does the same whether positions are command numbers or byte offsets. */
  lemma CommandRenames(w: World, off: Renaming, a: Parser, b: Parser, h: History, words: seq<Token>)
    requires Shape(a) && Shape(b) && Renamed(off, a, b) && SamePlace(off, a.at, b.at, words)
    requires |off| > 0 && off[0] == 0
    ensures var ra := ParseCommand(w, a, h, words);
            var rb := ParseCommand(w, b, h, words);
            && Renamed(off, ra.np, rb.np) && ra.history == rb.history && ra.ok == rb.ok
            && SameMove(off, a.at, b.at, ra.np.at, rb.np.at)
  {
    hide LoopStage, ItefStage, Execute, SaveResult, Renamed, SamePlace;
    LoopStageRenames(off, a, b, words);
    var la := LoopStage(a, words);
    var lb := LoopStage(b, words);
    SaveRenames(off, la.np, lb.np, true);
    ItefStageRenames(off, la.np, lb.np, la.words);
    var ia := ItefStage(la.np, la.words);
    var ib := ItefStage(lb.np, lb.words);
    SaveRenames(off, ia.np, ib.np, true);
    EnabledRenames(off, ia.np, ib.np);
    if ia.words != [] {
      ExecuteRenames(w, off, ia.np, ib.np, h, ia.words);
    }
  }
}
