/** What every run of the parser keeps, for any commands at all: well formed or not, failing
    or not, with `break` and error resets anywhere. */
module ParserSafety {
  import opened ParserState

  /** One call of the parser: the words of the command, and the cursor as the line and
      script loops have left it. */
  datatype Input = Input(words: seq<Token>, at: Cursor)

  function Prepare(np: Parser, i: Input): Parser {
    np.(at := i.at)
  }

  /** The parser as memset() leaves it, with stacks of depth n. */
  function Initial(n: nat): Parser {
    Parser(false, Cursor(false, 0, 0, false, 0),
           Stack(0, seq(n, _ => LoopLevel(LoopNormal, false, 0, 0))),
           Stack(0, seq(n, _ => ItefLevel(ItefNormal, false, false, false))))
  }

  /** The result of every command of a run, in order. */
  function Results(w: World, np: Parser, history: History, inputs: seq<Input>): (rs: seq<Ran>)
    requires Shape(np)
    ensures |rs| == |inputs|
    ensures forall k | 0 <= k < |rs| :: Shape(rs[k].np)
    decreases |inputs|
  {
    if inputs == [] then
      []
    else
      var r := ParseCommand(w, Prepare(np, inputs[0]), history, inputs[0].words);
      [r] + Results(w, r.np, r.history, inputs[1..])
  }

  lemma LoopStageKeepsInvariant(np: Parser, words: seq<Token>)
    requires Invariant(np)
    ensures Invariant(LoopStage(np, words).np)
    ensures LoopStage(np, words).error != Internal
  {
    hide LoopReset, LoopPush, LoopPop, SetLoopState;
    ResetKeepsInvariant(np);
    if AwaitsDo(Top(np.lp).state) {
      DoKeepsInvariant(np);
    } else {
      if !Full(np.lp) {
        PushKeepsInvariant(np, LoopWhile);
        PushKeepsInvariant(np, LoopUntil);
      }
      if Top(np.lp).state == LoopDo {
        PopKeepsInvariant(np);
      }
    }
  }

  lemma ResetKeepsInvariant(np: Parser)
    requires Invariant(np)
    ensures Invariant(LoopReset(np))
  {
  }

  lemma PushKeepsInvariant(np: Parser, state: LoopState)
    requires Invariant(np) && !Full(np.lp) && !AwaitsDo(Top(np.lp).state) && AwaitsDo(state)
    ensures Invariant(LoopPush(np, state))
  {
  }

  lemma DoKeepsInvariant(np: Parser)
    requires Invariant(np) && AwaitsDo(Top(np.lp).state)
    ensures Invariant(SetLoopState(np, LoopDo))
  {
  }

  lemma PopKeepsInvariant(np: Parser)
    requires Invariant(np) && Top(np.lp).state == LoopDo
    ensures 0 < np.lp.ndx && Invariant(LoopPop(np))
  {
  }

  lemma IfStageKeepsInvariant(np: Parser, cond: seq<Token>, inverted: bool)
    requires Invariant(np)
    ensures Invariant(IfStage(np, cond, inverted).np)
    ensures IfStage(np, cond, inverted).error != Internal
  {
  }

  lemma ItefStageKeepsInvariant(np: Parser, words: seq<Token>)
    requires Invariant(np)
    ensures Invariant(ItefStage(np, words).np)
    ensures ItefStage(np, words).error != Internal
  {
    if words != [] && words[0] == If {
      var rest := words[1..];
      if rest != [] && rest[0] == Bang {
        IfStageKeepsInvariant(np, rest[1..], true);
      } else {
        IfStageKeepsInvariant(np, rest, false);
      }
    }
  }

  lemma SaveResultKeepsInvariant(np: Parser, failed: bool)
    requires Invariant(np)
    ensures Invariant(SaveResult(np, failed).np)
  {
  }

  lemma ExecuteKeepsInvariant(w: World, np: Parser, history: History, words: seq<Token>)
    requires Invariant(np) && words != []
    ensures Invariant(Execute(w, np, history, words).np)
    ensures Execute(w, np, history, words).error == NoError
  {
    SaveResultKeepsInvariant(BreakLoop(np), false);
    SaveResultKeepsInvariant(np, w.fails(history + [Event(words, np.fail)]));
  }

  lemma CommandKeepsInvariant(w: World, np: Parser, history: History, words: seq<Token>)
    requires Invariant(np)
    ensures Invariant(ParseCommand(w, np, history, words).np)
    ensures ParseCommand(w, np, history, words).error != Internal
  {
    LoopStageKeepsInvariant(np, words);
    var loop := LoopStage(np, words);
    ItefStageKeepsInvariant(loop.np, loop.words);
    var itef := ItefStage(loop.np, loop.words);
    SaveResultKeepsInvariant(loop.np, true);
    SaveResultKeepsInvariant(itef.np, true);
    if itef.words != [] {
      ExecuteKeepsInvariant(w, itef.np, history, itef.words);
    }
  }

  lemma {:induction false} RunKeepsInvariant(w: World, np: Parser, history: History, inputs: seq<Input>)
    requires Invariant(np)
    ensures forall r | r in Results(w, np, history, inputs) ::
              Invariant(r.np) && r.error != Internal && |r.np.lp.levels| == |np.lp.levels|
    decreases |inputs|
  {
    if inputs != [] {
      var np' := Prepare(np, inputs[0]);
      CommandKeepsInvariant(w, np', history, inputs[0].words);
      var r := ParseCommand(w, np', history, inputs[0].words);
      RunKeepsInvariant(w, r.np, r.history, inputs[1..]);
    }
  }

  /** From a zeroed parser with stacks of any depth N, every command of every run leaves both
      indices below N, level 0 of both stacks NORMAL, every loop level strictly between 0 and
      the top DO, and never takes a branch marked "Shouldn't happen". */
  lemma SafetyOnEveryRun(w: World, n: nat, inputs: seq<Input>, k: nat)
    requires 0 < n && k < |inputs|
    ensures var r := Results(w, Initial(n), [], inputs)[k];
            && r.np.lp.ndx < n == |r.np.lp.levels|
            && r.np.ie.ndx < n == |r.np.ie.levels|
            && r.np.lp.levels[0].state == LoopNormal
            && r.np.ie.levels[0].state == ItefNormal
            && (forall level | 0 < level < r.np.lp.ndx :: r.np.lp.levels[level].state == LoopDo)
            && r.error != Internal
  {
    RunKeepsInvariant(w, Initial(n), [], inputs);
    assert Results(w, Initial(n), [], inputs)[k] in Results(w, Initial(n), [], inputs);
  }

  // ----- Errors -----

  /** A command that is refused runs nothing.  It is reported as a failure, unless a condition is
      being waited for: then the refused command is taken for a condition that has failed, and is
      reported as a success.  That is so exactly if a loop keyword is refused after `if`, or an if
      keyword as the condition of a loop.  A refused loop keyword drops all loops and no if, and a
      refused if keyword all ifs and no loop, so that they no longer disable anything. */
  lemma RefusalFailsIff(w: World, np: Parser, h: History, words: seq<Token>)
    requires Invariant(np) && ParseCommand(w, np, h, words).error != NoError
    ensures var r := ParseCommand(w, np, h, words);
            && r.history == h && r.np.fail == !r.ok
            && (r.ok <==> if LoopStage(np, words).error != NoError then Top(np.ie).state == ItefIf
                          else words != [] && (words[0] == While || words[0] == Until))
            && if LoopStage(np, words).error != NoError
               then r.np.lp.ndx == 0 && LoopEnabled(r.np) && r.np.ie.ndx == np.ie.ndx
               else r.np.ie.ndx == 0 && ItefEnabled(r.np) && r.np.lp.ndx == LoopStage(np, words).np.lp.ndx
  {
    hide LoopStage, ItefStage, SaveResult, CmdEnabled;
    var loop := LoopStage(np, words);
    LoopRefuses(np, words);
    if loop.error != NoError {
      SavedFailure(loop.np);
    } else {
      ItefRefuses(loop.np, loop.words);
      SavedFailure(ItefStage(loop.np, loop.words).np);
    }
  }

  lemma SavedFailure(np: Parser)
    requires Shape(np)
    ensures var r := SaveResult(np, true);
            && r.np.fail == !r.ok && (r.ok <==> AwaitsDo(Top(np.lp).state) || Top(np.ie).state == ItefIf)
            && r.np.lp.ndx == np.lp.ndx && r.np.ie.ndx == np.ie.ndx
            && Top(r.np.lp).state == Top(np.lp).state && (Top(np.ie).state != ItefIf ==> r.np.ie == np.ie)
  {
  }

  /** A loop keyword that is refused drops all loops; otherwise a loop waits for its condition exactly
      after `while` and `until`. */
  lemma LoopRefuses(np: Parser, words: seq<Token>)
    requires Invariant(np)
    ensures var r := LoopStage(np, words);
            if r.error != NoError then Top(r.np.lp).state == LoopNormal && r.np.lp.ndx == 0 && r.np.ie == np.ie
            else AwaitsDo(Top(r.np.lp).state) && r.words != [] <==>
                 words != [] && (words[0] == While || words[0] == Until)
  {
  }

  lemma ItefRefuses(np: Parser, words: seq<Token>)
    requires Shape(np)
    ensures var r := ItefStage(np, words);
            r.error != NoError ==>
              && words != [] && r.np.lp == np.lp
              && Top(r.np.ie).state == ItefNormal && r.np.ie.ndx == 0 && ItefEnabled(r.np)
  {
  }

  /** `done` without a loop fails; but after `if c` it makes the if take its else part. */
  lemma RefusalExample(w: World, np: Parser, h: History)
    requires Invariant(np) && np.lp.ndx == 0 && Top(np.ie).state == ItefIf && !Top(np.ie).inverted
    ensures var r := ParseCommand(w, np, h, [Done]);
            r.error == BadContext && r.ok && !r.np.fail && Top(r.np.ie).ifcond
    ensures var rest := np.(ie := SetTop(np.ie, Top(np.ie).(state := ItefNormal)));
            !ParseCommand(w, rest, h, [Done]).ok
  {
  }

  // ----- Which keywords are accepted, and what they count up to -----

  /** `if` is accepted with a condition, where no other one is awaited, if there is room; `then` after
      the condition, `else` in a then part, and a bare `fi` in a then or else part; any other word
      where no condition is awaited.  If the word is refused, all ifs are dropped. */
  lemma IfKeywordAcceptedIff(np: Parser, words: seq<Token>)
    requires Shape(np) && words != []
    ensures var state := Top(np.ie).state;
            var cond := if |words| > 1 && words[1] == Bang then words[2..] else words[1..];
            ItefStage(np, words).error == NoError <==>
            match words[0]
            case If => cond != [] && cond[0] != Word("") && state != ItefIf && np.ie.ndx + 1 < |np.ie.levels|
            case Then => state == ItefIf
            case Else => state == ItefThen
            case Fi => |words| == 1 && (state == ItefThen || state == ItefElse) && np.ie.ndx > 0
            case _ => state != ItefIf
    ensures ItefStage(np, words).error != NoError ==> ItefStage(np, words).np.ie.ndx == 0
  {
    assert |words| > 1 ==> words[1..][0] == words[1] && words[1..][1..] == words[2..];
  }

  /** How many loops a command opens, or closes if negative. */
  function LoopDelta(words: seq<Token>): int {
    if words == [] then 0
    else if words[0] == While || words[0] == Until then 1
    else if words[0] == Done then -1 else 0
  }

  /** The same for ifs; an if keyword may follow a loop keyword in the same command. */
  function IfDelta(words: seq<Token>): int {
    if words == [] then 0
    else if words[0] == If then 1
    else if words[0] == Fi then -1
    else if words[0].While? || words[0].Until? || words[0].Do? then FrontDelta(words[1..]) else 0
  }

  function FrontDelta(words: seq<Token>): int {
    if words == [] then 0 else if words[0] == If then 1 else if words[0] == Fi then -1 else 0
  }

  lemma CommandCounts(w: World, np: Parser, h: History, words: seq<Token>)
    requires Shape(np) && Break !in words && ParseCommand(w, np, h, words).error == NoError
    ensures var r := ParseCommand(w, np, h, words);
            r.np.lp.ndx == np.lp.ndx + LoopDelta(words) && r.np.ie.ndx == np.ie.ndx + IfDelta(words)
  {
    hide LoopStage, ItefStage, Execute, CmdEnabled, IfDelta, LoopDelta;
    var loop := LoopStage(np, words);
    LoopCounts(np, words);
    IfCounts(loop.np, loop.words);
    var itef := ItefStage(loop.np, loop.words);
    if itef.words != [] {
      ExecuteKeepsIndices(w, itef.np, h, itef.words);
    }
  }

  lemma LoopCounts(np: Parser, words: seq<Token>)
    requires Shape(np)
    ensures var r := LoopStage(np, words);
            && (r.error == NoError ==>
                  && r.np.lp.ndx == np.lp.ndx + LoopDelta(words) && r.np.ie.ndx == np.ie.ndx
                  && FrontDelta(r.words) == IfDelta(words))
            && (Break !in words ==> Break !in r.words)
  {
  }

  lemma IfCounts(np: Parser, words: seq<Token>)
    requires Shape(np)
    ensures var r := ItefStage(np, words);
            && (r.error == NoError ==> r.np.ie.ndx == np.ie.ndx + FrontDelta(words) && r.np.lp.ndx == np.lp.ndx)
            && (Break !in words ==> Break !in r.words)
  {
  }

  lemma ExecuteKeepsIndices(w: World, np: Parser, h: History, words: seq<Token>)
    requires Shape(np) && words != [] && Break !in words
    ensures var r := Execute(w, np, h, words);
            r.np.lp.ndx == np.lp.ndx && r.np.ie.ndx == np.ie.ndx
  {
    assert words[0] in words;
  }

  function LoopsOpen(inputs: seq<Input>): int {
    if inputs == [] then 0 else LoopDelta(inputs[0].words) + LoopsOpen(inputs[1..])
  }

  function IfsOpen(inputs: seq<Input>): int {
    if inputs == [] then 0 else IfDelta(inputs[0].words) + IfsOpen(inputs[1..])
  }

  /** As long as no command is refused and there is no `break`, the depth of each stack is the number
      of its opening keywords less that of its closing ones, however ifs and loops are interleaved. */
  lemma {:induction false} DepthsCount(w: World, np: Parser, h: History, inputs: seq<Input>)
    requires Invariant(np) && inputs != [] && forall i | i in inputs :: Break !in i.words
    requires forall r | r in Results(w, np, h, inputs) :: r.error == NoError
    ensures var last := Results(w, np, h, inputs)[|inputs| - 1].np;
            last.lp.ndx == np.lp.ndx + LoopsOpen(inputs) && last.ie.ndx == np.ie.ndx + IfsOpen(inputs)
    decreases |inputs|
  {
    hide ParseCommand, LoopDelta, IfDelta;
    var np0 := Prepare(np, inputs[0]);
    var r := ParseCommand(w, np0, h, inputs[0].words);
    var rs := Results(w, np, h, inputs);
    assert rs[0] == r && r in rs && inputs[0] in inputs;
    CommandCounts(w, np0, h, inputs[0].words);
    CommandKeepsInvariant(w, np0, h, inputs[0].words);
    if |inputs| > 1 {
      var rest := Results(w, r.np, r.history, inputs[1..]);
      assert rs == [r] + rest;
      DepthsCount(w, r.np, r.history, inputs[1..]);
    }
  }

  /** So nothing tells whether ifs and loops are nested properly: in the body of a loop and a branch of
      an if, whichever of the two was opened first, both may be closed in either order. */
  lemma CrossingIsAccepted(w: World, np: Parser, h: History)
    requires Invariant(np) && Top(np.lp).state == LoopDo && np.ie.ndx > 0
    requires Top(np.ie).state == ItefThen || Top(np.ie).state == ItefElse
    ensures var done := ParseCommand(w, np, h, [Done]);
            var fi := ParseCommand(w, np, h, [Fi]);
            && done.error == fi.error == NoError
            && ParseCommand(w, done.np, h, [Fi]).error == ParseCommand(w, fi.np, h, [Done]).error == NoError
  {
    hide CmdEnabled, ParseCommand;
    DoneIsAccepted(w, np, h);
    FiIsAccepted(w, np, h);
    FiIsAccepted(w, ParseCommand(w, np, h, [Done]).np, h);
    DoneIsAccepted(w, ParseCommand(w, np, h, [Fi]).np, h);
  }

  lemma DoneIsAccepted(w: World, np: Parser, h: History)
    requires Invariant(np) && Top(np.lp).state == LoopDo
    ensures var r := ParseCommand(w, np, h, [Done]);
            r.error == NoError && Invariant(r.np) && r.np.ie == np.ie && !AwaitsDo(Top(r.np.lp).state)
  {
    hide CmdEnabled, ItefStage;
    CommandKeepsInvariant(w, np, h, [Done]);
    assert [Done][1..] == [];
    NothingLeft(LoopPop(np));
  }

  lemma NothingLeft(np: Parser)
    requires Shape(np)
    ensures ItefStage(np, []) == Staged(np, [], NoError)
  {
  }

  lemma FiIsAccepted(w: World, np: Parser, h: History)
    requires Invariant(np) && !AwaitsDo(Top(np.lp).state) && np.ie.ndx > 0
    requires Top(np.ie).state == ItefThen || Top(np.ie).state == ItefElse
    ensures var r := ParseCommand(w, np, h, [Fi]);
            r.error == NoError && r.np.lp == np.lp && Invariant(r.np)
  {
    hide CmdEnabled;
    CommandKeepsInvariant(w, np, h, [Fi]);
    assert [Fi][1..] == [];
  }

  // ----- Loops outside of scripts -----

  /** A loop head is accepted exactly if it has a condition, no other condition is being waited
      for, a script is being read and its position is known, and there is room on the stack. */
  lemma LoopHeadAcceptedIff(np: Parser, words: seq<Token>)
    requires Shape(np) && words != [] && (words[0] == While || words[0] == Until)
    ensures LoopStage(np, words).error == NoError <==>
            && |words| > 1 && words[1] != Word("")
            && Top(np.ie).state != ItefIf && !AwaitsDo(Top(np.lp).state)
            && np.at.stream && np.at.foffs >= 0 && np.lp.ndx + 1 < |np.lp.levels|
    ensures LoopStage(np, words).error == NoError ==> LoopStage(np, words).np.lp.ndx == np.lp.ndx + 1
    ensures LoopStage(np, words).error != NoError ==> LoopStage(np, words).np.lp.ndx == 0
  {
  }

  lemma NoStreamStage(np: Parser, words: seq<Token>)
    requires Invariant(np) && np.lp.ndx == 0 && !np.at.stream
    ensures var r := LoopStage(np, words);
            r.np.lp.ndx == 0 && (words != [] && (words[0] == While || words[0] == Until) ==> r.error != NoError)
  {
    if words != [] && (words[0] == While || words[0] == Until) {
      LoopHeadAcceptedIff(np, words);
    }
  }

  lemma RestKeepsLoopIndex(w: World, np: Parser, history: History, words: seq<Token>)
    requires Shape(np)
    ensures ItefStage(np, words).np.lp.ndx == np.lp.ndx
    ensures forall failed :: SaveResult(np, failed).np.lp.ndx == np.lp.ndx
    ensures words != [] ==> Execute(w, np, history, words).np.lp.ndx == np.lp.ndx
  {
  }

  lemma NoStreamCommand(w: World, np: Parser, history: History, words: seq<Token>)
    requires Invariant(np) && np.lp.ndx == 0 && !np.at.stream
    ensures var r := ParseCommand(w, np, history, words);
            && r.np.lp.ndx == 0
            && (words != [] && (words[0] == While || words[0] == Until) ==> r.error != NoError && r.history == history)
  {
    hide LoopStage, ItefStage, Execute, SaveResult, CmdEnabled;
    NoStreamStage(np, words);
    var loop := LoopStage(np, words);
    var itef := ItefStage(loop.np, loop.words);
    RestKeepsLoopIndex(w, loop.np, history, loop.words);
    RestKeepsLoopIndex(w, itef.np, history, itef.words);
  }

  /** On every run of commands that do not come from a script, every `while` and `until` is an
      error, and no loop is ever open. */
  lemma {:induction false} NoLoopsOutsideScripts(w: World, np: Parser, history: History, inputs: seq<Input>, k: nat)
    requires Invariant(np) && np.lp.ndx == 0 && k < |inputs|
    requires forall i | i in inputs :: !i.at.stream
    ensures var words := inputs[k].words;
            var r := Results(w, np, history, inputs)[k];
            && r.np.lp.ndx == 0
            && (words != [] && (words[0] == While || words[0] == Until) ==> r.error != NoError)
    decreases |inputs|
  {
    hide ParseCommand;
    var np0 := Prepare(np, inputs[0]);
    assert inputs[0] in inputs;
    NoStreamCommand(w, np0, history, inputs[0].words);
    CommandKeepsInvariant(w, np0, history, inputs[0].words);
    if k > 0 {
      var r := ParseCommand(w, np0, history, inputs[0].words);
      NoLoopsOutsideScripts(w, r.np, r.history, inputs[1..], k - 1);
    }
  }
}
