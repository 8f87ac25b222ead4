/** A script as NSH sees it: a list of commands, run one after the other, where `done` may
    move the reading position back.  Positions are command numbers here; module `Script`
    replaces them by byte offsets into the script file. */
module FlatMachine {
  import opened ParserState

  /** A command of a script, and whether it is the last command on its line. */
  datatype Item = Item(words: seq<Token>, last: bool)

  /** `ok` is the result of the last command, and false if there has been none. */
  datatype Machine = Machine(np: Parser, history: History, pc: int, stopped: bool, ok: bool)

  /** The first command of the line after the one that holds command i. */
  function NextLine(prog: seq<Item>, i: nat): (j: nat)
    requires i < |prog|
    ensures i < j <= |prog|
    decreases |prog| - i
  {
    if prog[i].last || i + 1 == |prog| then i + 1 else NextLine(prog, i + 1)
  }

  predicate Halted(prog: seq<Item>, m: Machine) {
    m.stopped || !(0 <= m.pc < |prog|)
  }

  /** Run the command at `pc`.  A command that fails gives up the rest of its line, and the
      whole script unless `set +e` is in force. */
  function Step(w: World, prog: seq<Item>, m: Machine): (m': Machine)
    requires Shape(m.np)
    ensures Shape(m'.np) && |m'.np.lp.levels| == |m.np.lp.levels|
  {
    if Halted(prog, m) then
      m
    else
      var r := ParseCommand(w, m.np.(at := Cursor(true, m.pc, 0, false, m.pc + 1)), m.history, prog[m.pc].words);
      if r.ok then
        Machine(r.np, r.history, r.np.at.pos, false, true)
      else
        Machine(r.np, r.history, NextLine(prog, m.pc), !w.ignores(r.history), false)
  }

  function Run(w: World, prog: seq<Item>, m: Machine, n: nat): (m': Machine)
    requires Shape(m.np)
    ensures Shape(m'.np) && |m'.np.lp.levels| == |m.np.lp.levels|
    decreases n
  {
    if n == 0 then m else Run(w, prog, Step(w, prog, m), n - 1)
  }

  lemma {:induction false} RunSplits(w: World, prog: seq<Item>, m: Machine, a: nat, b: nat)
    requires Shape(m.np)
    ensures Run(w, prog, m, a + b) == Run(w, prog, Run(w, prog, m, a), b)
    decreases a
  {
    hide Step;
    if a != 0 {
      RunSplits(w, prog, Step(w, prog, m), a - 1, b);
    }
  }

  lemma RunZero(w: World, prog: seq<Item>, m: Machine)
    requires Shape(m.np)
    ensures Run(w, prog, m, 0) == m
  {
  }

  lemma RunOne(w: World, prog: seq<Item>, m: Machine)
    requires Shape(m.np)
    ensures Run(w, prog, m, 1) == Step(w, prog, m)
  {
    assert Run(w, prog, Step(w, prog, m), 0) == Step(w, prog, m);
  }

  /** One more step after n. */
  lemma RunThenStep(w: World, prog: seq<Item>, m: Machine, n: nat)
    requires Shape(m.np)
    ensures Run(w, prog, m, n + 1) == Step(w, prog, Run(w, prog, m, n))
  {
    hide Step;
    RunSplits(w, prog, m, n, 1);
    RunOne(w, prog, Run(w, prog, m, n));
  }

  lemma {:induction false} HaltedStays(w: World, prog: seq<Item>, m: Machine, n: nat)
    requires Shape(m.np) && Halted(prog, m)
    ensures Run(w, prog, m, n) == m
  {
    if n != 0 {
      HaltedStays(w, prog, m, n - 1);
    }
  }

  lemma {:induction false} StoppedByFailure(w: World, prog: seq<Item>, m: Machine, n: nat)
    requires Shape(m.np) && (m.stopped ==> !m.ok)
    ensures Run(w, prog, m, n).stopped ==> !Run(w, prog, m, n).ok
    decreases n
  {
    hide ParseCommand;
    if n > 0 {
      StoppedByFailure(w, prog, Step(w, prog, m), n - 1);
    }
  }

  // ----- What a step does to the live part of the two stacks -----

  /** The live part of a stack, from the top down. */
  datatype Levels<T> = Base(level: T) | Over(level: T, below: Levels<T>)

  function Height<T>(s: Levels<T>): (h: nat)
    ensures h > 0
  {
    if s.Base? then 1 else 1 + Height(s.below)
  }

  function LiveUpTo<T>(levels: seq<T>, k: nat): (s: Levels<T>)
    requires k < |levels|
    ensures Height(s) == k + 1
  {
    if k == 0 then Base(levels[0]) else Over(levels[k], LiveUpTo(levels, k - 1))
  }

  function Live<T>(s: Stack<T>): Levels<T>
    requires InRange(s)
  {
    LiveUpTo(s.levels, s.ndx)
  }

  /** Writing above a level does not change what is live up to it. */
  lemma {:induction false} LiveFrame<T>(levels: seq<T>, k: nat, j: nat, x: T)
    requires k < j < |levels|
    ensures LiveUpTo(levels[j := x], k) == LiveUpTo(levels, k)
  {
    if k != 0 {
      LiveFrame(levels, k - 1, j, x);
    }
  }

  lemma LivePush<T>(s: Stack<T>, x: T)
    requires InRange(s) && !Full(s)
    ensures Live(Push(s, x)) == Over(x, Live(s))
  {
    LiveFrame(s.levels, s.ndx, s.ndx + 1, x);
  }

  lemma LiveSetTop<T>(s: Stack<T>, x: T)
    requires InRange(s)
    ensures Live(SetTop(s, x)) == Live(s).(level := x)
  {
    if s.ndx != 0 {
      LiveFrame(s.levels, s.ndx - 1, s.ndx, x);
    }
  }

  lemma LivePop<T>(s: Stack<T>, x: T)
    requires InRange(s) && 0 < s.ndx
    ensures Live(SetTop(s, x).(ndx := s.ndx - 1)) == Live(s).below
    ensures Live(s.(ndx := s.ndx - 1)) == Live(s).below
  {
    LiveFrame(s.levels, s.ndx - 1, s.ndx, x);
  }

  /** A running machine without the stale entries of its stacks. */
  datatype View = View(pc: int, lp: Levels<LoopLevel>, ie: Levels<ItefLevel>, history: History, fail: bool)

  predicate Running(m: Machine, depth: nat) {
    Shape(m.np) && |m.np.lp.levels| == depth && !m.stopped
  }

  function ViewOf(m: Machine): (v: View)
    requires Shape(m.np)
    ensures v.pc == m.pc && v.history == m.history && v.fail == m.np.fail
    ensures v.lp.level == Top(m.np.lp) && v.ie.level == Top(m.np.ie)
  {
    View(m.pc, Live(m.np.lp), Live(m.np.ie), m.history, m.np.fail)
  }

  predicate On(v: View) {
    (v.lp.level.state == LoopDo ==> v.lp.level.enable) && LevelEnabled(v.ie.level)
  }

  /** Neither a loop nor an if is waiting for its condition to be followed up. */
  predicate Ready(v: View) {
    !AwaitsDo(v.lp.level.state) && v.ie.level.state != ItefIf
  }

  predicate Keyword(t: Token) {
    t.While? || t.Until? || t.Do? || t.Done? || t.If? || t.Then? || t.Else? || t.Fi?
  }

  predicate Plain(words: seq<Token>) {
    words != [] && !Keyword(words[0])
  }

  predicate LoopCondition(words: seq<Token>) {
    Plain(words) && !IsBreak(words) && words[0] != Word("")
  }

  predicate IfCondition(words: seq<Token>) {
    LoopCondition(words) && words[0] != Bang
  }

  /** History and outcome of running one command that is not `break`. */
  function After(h: History, words: seq<Token>, fail: bool): History {
    h + [Event(words, fail)]
  }

  predicate AtItem(prog: seq<Item>, m: Machine, depth: nat, words: seq<Token>) {
    Running(m, depth) && 0 <= m.pc < |prog| && prog[m.pc].words == words
  }

  // ----- Keyword stages that let a command through -----

  lemma LoopStagePasses(np: Parser, words: seq<Token>)
    requires Shape(np) && !AwaitsDo(Top(np.lp).state)
    requires words != [] ==> !words[0].While? && !words[0].Until? && !words[0].Do? && !words[0].Done?
    ensures LoopStage(np, words) == Staged(np, words, NoError)
  {
  }

  lemma ItefStagePasses(np: Parser, words: seq<Token>)
    requires Shape(np)
    requires words != [] ==> !words[0].If? && !words[0].Then? && !words[0].Else? && !words[0].Fi?
    requires words == [] || Top(np.ie).state != ItefIf
    ensures ItefStage(np, words) == Staged(np, words, NoError)
  {
  }

  lemma PlainPasses(w: World, np: Parser, h: History, c: seq<Token>)
    requires Shape(np) && Plain(c) && !AwaitsDo(Top(np.lp).state) && Top(np.ie).state != ItefIf
    ensures ParseCommand(w, np, h, c) ==
            if CmdEnabled(np) then Execute(w, np, h, c) else Ran(np, h, true, NoError)
  {
    hide LoopStage, ItefStage, Execute, CmdEnabled;
    LoopStagePasses(np, c);
    ItefStagePasses(np, c);
  }

  /** `then`, `else` and `do` may carry the first command of their branch; the effect is that
      of the keyword alone followed by the command. */
  lemma GluedCommand(w: World, np: Parser, h: History, k: Token, c: seq<Token>)
    requires Shape(np) && Plain(c) && (k == Then || k == Else || k == Do)
    requires ParseCommand(w, np, h, [k]).error == NoError
    ensures ParseCommand(w, np, h, [k] + c) ==
            ParseCommand(w, ParseCommand(w, np, h, [k]).np, h, c)
  {
    hide Execute, CmdEnabled;
    assert ([k] + c)[1..] == c;
    assert [k][1..] == [];
  }

  // ----- What each command does to a machine -----

  function Entering(m: Machine): Parser {
    m.np.(at := Cursor(true, m.pc, 0, false, m.pc + 1))
  }

  lemma StepSkipsPlain(w: World, prog: seq<Item>, m: Machine, depth: nat, c: seq<Token>)
    requires AtItem(prog, m, depth, c) && Plain(c) && Ready(ViewOf(m)) && !On(ViewOf(m))
    ensures Running(Step(w, prog, m), depth)
    ensures ViewOf(Step(w, prog, m)) == ViewOf(m).(pc := m.pc + 1)
  {
    hide ParseCommand, Execute;
    PlainPasses(w, Entering(m), m.history, c);
  }

  lemma StepRunsPlain(w: World, prog: seq<Item>, m: Machine, depth: nat, c: seq<Token>)
    requires AtItem(prog, m, depth, c) && Plain(c) && !IsBreak(c) && Ready(ViewOf(m)) && On(ViewOf(m))
    ensures var h := After(m.history, c, m.np.fail);
            var m' := Step(w, prog, m);
            && (w.fails(h) && !w.ignores(h) ==>
                  m'.stopped && m'.history == h && m'.np.fail)
            && (!(w.fails(h) && !w.ignores(h)) ==>
                  && Running(m', depth) && m'.ok == !w.fails(h)
                  && ViewOf(m') == ViewOf(m).(history := h, fail := w.fails(h),
                                              pc := if w.fails(h) then NextLine(prog, m.pc) else m.pc + 1))
  {
    hide ParseCommand;
    PlainPasses(w, Entering(m), m.history, c);
  }

  /** The levels up to level k, or all of them if there are no more. */
  function CutTo<T>(s: Levels<T>, k: nat): (r: Levels<T>)
    ensures Height(r) == if k < Height(s) then k + 1 else Height(s)
    ensures Height(s) <= k + 1 ==> r == s
  {
    if Height(s) <= k + 1 then s else CutTo(s.below, k)
  }

  lemma {:induction false} LiveCut<T>(levels: seq<T>, k: nat, j: nat)
    requires j <= k < |levels|
    ensures LiveUpTo(levels, j) == CutTo(LiveUpTo(levels, k), j)
  {
    if j < k {
      LiveCut(levels, k - 1, j);
    }
  }

  function Disable(lp: Levels<LoopLevel>): Levels<LoopLevel> {
    lp.(level := lp.level.(enable := false))
  }

  /** What is left of a view by `break`: in a loop body it disables the loop and drops the ifs
      that were opened inside the loop. */
  function Broken(v: View): View {
    if v.lp.level.state == LoopDo
    then v.(lp := Disable(v.lp), ie := CutTo(v.ie, v.lp.level.iendx))
    else v
  }

  lemma StepBreaks(w: World, prog: seq<Item>, m: Machine, depth: nat)
    requires AtItem(prog, m, depth, [Break]) && Ready(ViewOf(m)) && On(ViewOf(m))
    requires var v := ViewOf(m);
             v.lp.level.state == LoopDo ==>
               v.lp.level.iendx < Height(v.ie) && CutTo(v.ie, v.lp.level.iendx).level.state != ItefIf
    ensures Running(Step(w, prog, m), depth) && Step(w, prog, m).ok
    ensures ViewOf(Step(w, prog, m)) == Broken(ViewOf(m)).(pc := m.pc + 1, fail := false)
  {
    hide ParseCommand;
    PlainPasses(w, Entering(m), m.history, [Break]);
    LiveSetTop(m.np.lp, Top(m.np.lp).(enable := false));
    if Top(m.np.lp).state == LoopDo {
      LiveCut(m.np.ie.levels, m.np.ie.ndx, Top(m.np.lp).iendx);
    }
  }

  /** `else` and `fi` where no if is open: an error, which stops the script unless `set +e` is in
      force. */
  lemma StepLost(w: World, prog: seq<Item>, m: Machine, depth: nat, words: seq<Token>)
    requires AtItem(prog, m, depth, words) && words != [] && (words[0] == Else || words == [Fi])
    requires !AwaitsDo(ViewOf(m).lp.level.state) && ViewOf(m).ie.level.state == ItefNormal
    requires !w.ignores(m.history)
    ensures var m' := Step(w, prog, m);
            m'.stopped && m'.history == m.history && m'.np.fail
  {
    hide ParseCommand;
    LostKeyword(w, Entering(m), m.history, words);
  }

  lemma LostKeyword(w: World, np: Parser, h: History, words: seq<Token>)
    requires Shape(np) && words != [] && (words[0] == Else || words == [Fi])
    requires !AwaitsDo(Top(np.lp).state) && Top(np.ie).state == ItefNormal
    ensures var r := ParseCommand(w, np, h, words);
            r.error == BadContext && !r.ok && r.np.fail && r.history == h
  {
    hide CmdEnabled;
    LoopStagePasses(np, words);
    assert words == [Fi] ==> words[1..] == [];
  }

  lemma IfPasses(w: World, np: Parser, h: History, inverted: bool, cond: seq<Token>)
    requires Shape(np) && IfCondition(cond) && !Full(np.ie)
    requires !AwaitsDo(Top(np.lp).state) && Top(np.ie).state != ItefIf
    ensures ParseCommand(w, np, h, (if inverted then [If, Bang] else [If]) + cond) ==
            if CmdEnabled(ItefPush(np, inverted)) then Execute(w, ItefPush(np, inverted), h, cond)
            else Ran(ItefPush(np, inverted), h, true, NoError)
  {
    hide LoopStage, Execute, CmdEnabled;
    var words := (if inverted then [If, Bang] else [If]) + cond;
    LoopStagePasses(np, words);
    assert words[1..] == if inverted then [Bang] + cond else cond;
    assert inverted ==> words[1..][1..] == cond;
  }

  lemma StepIf(w: World, prog: seq<Item>, m: Machine, depth: nat, inverted: bool, cond: seq<Token>)
    requires AtItem(prog, m, depth, (if inverted then [If, Bang] else [If]) + cond)
    requires IfCondition(cond) && Ready(ViewOf(m)) && Height(ViewOf(m).ie) < depth
    ensures var v := ViewOf(m);
            var h := After(m.history, cond, m.np.fail);
            var m' := Step(w, prog, m);
            && Running(m', depth)
            && ViewOf(m') ==
               if On(v)
               then v.(pc := m.pc + 1, history := h, fail := false,
                       ie := Over(ItefLevel(ItefIf, false, inverted != w.fails(h), inverted), v.ie))
               else v.(pc := m.pc + 1, ie := Over(ItefLevel(ItefIf, true, false, inverted), v.ie))
  {
    hide ParseCommand;
    IfPasses(w, Entering(m), m.history, inverted, cond);
    var level := ItefLevel(ItefIf, !CmdEnabled(m.np), false, inverted);
    LivePush(m.np.ie, level);
    LiveSetTop(Push(m.np.ie, level),
               level.(ifcond := inverted != w.fails(After(m.history, cond, m.np.fail))));
  }

  lemma FiPasses(w: World, np: Parser, h: History)
    requires Shape(np) && 0 < np.ie.ndx && !AwaitsDo(Top(np.lp).state)
    requires Top(np.ie).state == ItefThen || Top(np.ie).state == ItefElse
    ensures ParseCommand(w, np, h, [Fi]) == Ran(np.(ie := np.ie.(ndx := np.ie.ndx - 1)), h, true, NoError)
  {
    hide LoopStage, CmdEnabled;
    LoopStagePasses(np, [Fi]);
    assert [Fi][1..] == [];
  }

  lemma StepFi(w: World, prog: seq<Item>, m: Machine, depth: nat)
    requires AtItem(prog, m, depth, [Fi])
    requires var v := ViewOf(m);
             && v.ie.Over? && !AwaitsDo(v.lp.level.state)
             && (v.ie.level.state == ItefThen || v.ie.level.state == ItefElse)
    ensures Running(Step(w, prog, m), depth) && Step(w, prog, m).ok
    ensures ViewOf(Step(w, prog, m)) == ViewOf(m).(pc := m.pc + 1, ie := ViewOf(m).ie.below)
  {
    hide ParseCommand;
    FiPasses(w, Entering(m), m.history);
    LivePop(m.np.ie, Top(m.np.ie));
  }

  lemma LoopPasses(w: World, np: Parser, h: History, until: bool, cond: seq<Token>)
    requires Shape(np) && LoopCondition(cond) && !Full(np.lp) && np.at.stream && np.at.foffs >= 0
    requires !AwaitsDo(Top(np.lp).state) && Top(np.ie).state != ItefIf
    ensures var np' := LoopPush(np, if until then LoopUntil else LoopWhile);
            ParseCommand(w, np, h, [if until then Until else While] + cond) ==
            if CmdEnabled(np') then Execute(w, np', h, cond) else Ran(np', h, true, NoError)
  {
    hide ItefStage, Execute, CmdEnabled;
    var words := [if until then Until else While] + cond;
    assert words[1..] == cond;
    ItefStagePasses(LoopPush(np, if until then LoopUntil else LoopWhile), cond);
  }

  /** The condition of a loop decides whether the loop is enabled, and never fails. */
  lemma LoopConditionRuns(w: World, np: Parser, h: History, cond: seq<Token>)
    requires Shape(np) && AwaitsDo(Top(np.lp).state) && LoopCondition(cond)
    ensures var h1 := After(h, cond, np.fail);
            var top := Top(np.lp);
            Execute(w, np, h, cond) ==
            Ran(np.(fail := false, lp := SetTop(np.lp, top.(enable := w.fails(h1) == (top.state == LoopUntil)))),
                h1, true, NoError)
  {
  }

  /** A loop head as a whole. */
  lemma LoopHeadRuns(w: World, np: Parser, h: History, until: bool, cond: seq<Token>)
    requires Shape(np) && LoopCondition(cond) && !Full(np.lp) && np.at.stream && np.at.foffs >= 0
    requires !AwaitsDo(Top(np.lp).state) && Top(np.ie).state != ItefIf
    ensures var h1 := After(h, cond, np.fail);
            var level := LoopLevel(if until then LoopUntil else LoopWhile, CmdEnabled(np), np.ie.ndx,
                                   np.at.foffs + np.at.loffs);
            var lp := Push(np.lp, level);
            var at := np.at.(jump := false);
            && InRange(lp) && |lp.levels| == |np.lp.levels|
            && ParseCommand(w, np, h, [if until then Until else While] + cond) ==
               if LevelEnabled(Top(np.ie))
               then Ran(np.(fail := false, at := at, lp := SetTop(lp, level.(enable := w.fails(h1) == until))),
                        h1, true, NoError)
               else Ran(np.(at := at, lp := lp), h, true, NoError)
  {
    hide ParseCommand, Execute;
    var pushed := LoopPush(np, if until then LoopUntil else LoopWhile);
    LoopPasses(w, np, h, until, cond);
    LoopConditionRuns(w, pushed, h, cond);
  }

  /** A loop head pushes a level that remembers its own position.  The condition runs whenever
      the if stack allows it, even if an outer loop is being skipped. */
  lemma StepLoop(w: World, prog: seq<Item>, m: Machine, depth: nat, until: bool, cond: seq<Token>)
    requires AtItem(prog, m, depth, [if until then Until else While] + cond)
    requires LoopCondition(cond) && Ready(ViewOf(m)) && Height(ViewOf(m).lp) < depth
    ensures var v := ViewOf(m);
            var h := After(m.history, cond, m.np.fail);
            var m' := Step(w, prog, m);
            var state := if until then LoopUntil else LoopWhile;
            && Running(m', depth)
            && ViewOf(m') ==
               if LevelEnabled(v.ie.level)
               then v.(pc := m.pc + 1, history := h, fail := false,
                       lp := Over(LoopLevel(state, w.fails(h) == until, Height(v.ie) - 1, m.pc), v.lp))
               else v.(pc := m.pc + 1,
                       lp := Over(LoopLevel(state, false, Height(v.ie) - 1, m.pc), v.lp))
  {
    hide ParseCommand, Height, SetTop, Push;
    var level := LoopLevel(if until then LoopUntil else LoopWhile, CmdEnabled(m.np), m.np.ie.ndx, m.pc);
    LoopHeadRuns(w, Entering(m), m.history, until, cond);
    LivePush(m.np.lp, level);
    LiveSetTop(Push(m.np.lp, level),
               level.(enable := w.fails(After(m.history, cond, m.np.fail)) == until));
  }

  lemma DonePasses(w: World, np: Parser, h: History)
    requires Shape(np) && 0 < np.lp.ndx && Top(np.lp).state == LoopDo
    ensures ParseCommand(w, np, h, [Done]) == Ran(LoopPop(np), h, true, NoError)
  {
    hide ItefStage, CmdEnabled;
    assert [Done][1..] == [];
    ItefStagePasses(LoopPop(np), []);
  }

  lemma StepDone(w: World, prog: seq<Item>, m: Machine, depth: nat)
    requires AtItem(prog, m, depth, [Done])
    requires ViewOf(m).lp.Over? && ViewOf(m).lp.level.state == LoopDo
    ensures var v := ViewOf(m);
            && Running(Step(w, prog, m), depth) && Step(w, prog, m).ok
            && ViewOf(Step(w, prog, m)) ==
               v.(lp := v.lp.below, pc := if v.lp.level.enable then v.lp.level.topoffs else m.pc + 1)
  {
    hide ParseCommand;
    DonePasses(w, Entering(m), m.history);
    LivePop(m.np.lp, Top(m.np.lp).(state := LoopNormal, enable := true));
  }

  // ----- Keywords that may carry a command -----

  predicate Carrier(k: Token) {
    k == Then || k == Else || k == Do
  }

  /** The keyword k is valid in this state. */
  predicate Accepts(v: View, k: Token)
    requires Carrier(k)
  {
    if k == Then then !AwaitsDo(v.lp.level.state) && v.ie.level.state == ItefIf
    else if k == Else then !AwaitsDo(v.lp.level.state) && v.ie.level.state == ItefThen
    else AwaitsDo(v.lp.level.state) && v.ie.level.state != ItefIf
  }

  function Marked(v: View, k: Token): View
    requires Carrier(k)
  {
    if k == Then then v.(ie := v.ie.(level := v.ie.level.(state := ItefThen)))
    else if k == Else then v.(ie := v.ie.(level := v.ie.level.(state := ItefElse)))
    else v.(lp := v.lp.(level := v.lp.level.(state := LoopDo)))
  }

  function MarkParser(np: Parser, k: Token): (r: Parser)
    requires Shape(np) && Carrier(k)
    ensures Shape(r) && |r.lp.levels| == |np.lp.levels|
  {
    if k == Then then SetItefState(np, ItefThen)
    else if k == Else then SetItefState(np, ItefElse)
    else SetLoopState(np, LoopDo)
  }

  function MarkMachine(m: Machine, k: Token): (r: Machine)
    requires Shape(m.np) && Carrier(k)
    ensures Shape(r.np)
  {
    m.(np := MarkParser(m.np, k))
  }

  lemma MarkedView(m: Machine, k: Token)
    requires Shape(m.np) && Carrier(k)
    ensures ViewOf(MarkMachine(m, k)) == Marked(ViewOf(m), k)
  {
    LiveSetTop(m.np.ie, Top(m.np.ie).(state := ItefThen));
    LiveSetTop(m.np.ie, Top(m.np.ie).(state := ItefElse));
    LiveSetTop(m.np.lp, Top(m.np.lp).(state := LoopDo));
  }

  lemma CarrierPasses(w: World, m: Machine, k: Token)
    requires Shape(m.np) && Carrier(k) && Accepts(ViewOf(m), k)
    ensures ParseCommand(w, Entering(m), m.history, [k]) ==
            Ran(Entering(MarkMachine(m, k)), m.history, true, NoError)
  {
    hide CmdEnabled;
    assert [k][1..] == [];
  }

  lemma StepCarrier(w: World, prog: seq<Item>, m: Machine, depth: nat, k: Token)
    requires Carrier(k) && AtItem(prog, m, depth, [k]) && Accepts(ViewOf(m), k)
    ensures Running(Step(w, prog, m), depth)
    ensures ViewOf(Step(w, prog, m)) == Marked(ViewOf(m), k).(pc := m.pc + 1)
  {
    hide ParseCommand;
    CarrierPasses(w, m, k);
    MarkedView(m, k);
  }

  lemma {:induction false} NextLineIgnoresWords(prog: seq<Item>, at: nat, words: seq<Token>, i: nat)
    requires at < |prog| && i < |prog|
    ensures NextLine(prog[at := prog[at].(words := words)], i) == NextLine(prog, i)
    decreases |prog| - i
  {
    if !(prog[i].last || i + 1 == |prog|) {
      NextLineIgnoresWords(prog, at, words, i + 1);
    }
  }

  /** A keyword that carries command c takes the step that c would take after the keyword. */
  lemma StepGlued(w: World, prog: seq<Item>, m: Machine, depth: nat, k: Token, c: seq<Token>)
    requires Carrier(k) && Plain(c) && AtItem(prog, m, depth, [k] + c) && Accepts(ViewOf(m), k)
    ensures Step(w, prog, m) == Step(w, prog[m.pc := prog[m.pc].(words := c)], MarkMachine(m, k))
  {
    hide ParseCommand, MarkParser;
    CarrierPasses(w, m, k);
    GluedCommand(w, Entering(m), m.history, k, c);
    NextLineIgnoresWords(prog, m.pc, c, m.pc);
  }
}
