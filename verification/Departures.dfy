/** The scripts on which the code departs from their ordinary meaning, and exactly which ones
    they are. */
module Departures {
  import opened ParserState
  import opened ParserSafety
  import opened FlatMachine
  import opened Structured
  import opened StructuredTheorems

  lemma CommandExtendsHistory(w: World, np: Parser, h: History, words: seq<Token>)
    requires Shape(np)
    ensures h <= ParseCommand(w, np, h, words).history
  {
    hide LoopStage, ItefStage, SaveResult, CmdEnabled, BreakLoop;
  }

  lemma {:induction false} RunExtendsHistory(w: World, prog: seq<Item>, m: Machine, n: nat)
    requires Shape(m.np)
    ensures m.history <= Run(w, prog, m, n).history
    decreases n
  {
    hide ParseCommand;
    if n > 0 && !Halted(prog, m) {
      CommandExtendsHistory(w, Entering(m), m.history, prog[m.pc].words);
      RunExtendsHistory(w, prog, Step(w, prog, m), n - 1);
    } else {
      HaltedStaysOrZero(w, prog, m, n);
    }
  }

  lemma HaltedStaysOrZero(w: World, prog: seq<Item>, m: Machine, n: nat)
    requires Shape(m.np) && (n == 0 || Halted(prog, m))
    ensures Run(w, prog, m, n) == m
  {
    if n == 0 {
      RunZero(w, prog, m);
    } else {
      HaltedStays(w, prog, m, n);
    }
  }

  /** At whatever moment one looks, the machine has run no command that NSH does not make of the
      program, and none out of order. */
  lemma RunKeepsToActs(w: World, b: Block, prog: seq<Item>, np: Parser, h: History, depth: nat, fuel: nat, n: nat)
    requires AtRest(np, depth) && Readable(b, depth) && IsScript(prog, b) && KeepsLines(w, prog)
    requires Acts(w, b, false, State(h, np.fail), fuel).Result?
    ensures Run(w, prog, Start(np, h), n).history <= Acts(w, b, false, State(h, np.fail), fuel).s.history
  {
    hide Acts, Run, Readable, IsScript, KeepsLines;
    var m := Start(np, h);
    var k := ActsAreReached(w, b, prog, np, h, depth, fuel);
    if k <= n {
      HaltsOnce(w, prog, m, k, n);
    } else {
      RunSplits(w, prog, m, n, k - n);
      RunExtendsHistory(w, prog, Run(w, prog, m, n), k - n);
    }
  }

  // ----- A loop directly inside a loop -----

  /** The first loop that stands outside of all the ifs of a block. */
  function FirstBareLoop(b: Block): (l: Block)
    requires !NoBareLoop(b)
    ensures l.Loop?
  {
    if b.Loop? then b else FirstBareLoop(b.next)
  }

  /** The converse of the skip lemma: if only a loop disables processing, then a block with a
      bare loop is not passed over in silence.  The condition of the first such loop runs. */
  lemma {:induction false} BareLoopRuns(w: World, prog: seq<Item>, m: Machine, depth: nat, b: Block) returns (n: nat)
    requires Before(prog, m, depth, b) && !On(ViewOf(m)) && LevelEnabled(ViewOf(m).ie.level) && !NoBareLoop(b)
    ensures Run(w, prog, m, n).history == After(m.history, FirstBareLoop(b).cond, m.np.fail)
    decreases b
  {
    hide Step, Run, Shape, ViewOf, Holds, WellWorded, IfDepth, LoopDepth, Flatten, Ready;
    match b
    case Cmd(_, next) =>
      SkipCmd(w, prog, m, depth, b);
      RunOne(w, prog, m);
      n := BareLoopRuns(w, prog, Run(w, prog, m, 1), depth, next);
      RunSplits(w, prog, m, 1, n);
      n := 1 + n;
    case Cond(_, _, _, _, _, _, _, next) =>
      var a := SkipCond(w, prog, m, depth, b);
      n := BareLoopRuns(w, prog, Run(w, prog, m, a), depth, next);
      RunSplits(w, prog, m, a, n);
      n := a + n;
    case Loop(_, _, _, _, _) =>
      LoopCondRuns(w, prog, m, depth, b);
      n := 1;
  }

  lemma LoopCondRuns(w: World, prog: seq<Item>, m: Machine, depth: nat, b: Block)
    requires b.Loop? && Before(prog, m, depth, b) && LevelEnabled(ViewOf(m).ie.level)
    ensures Run(w, prog, m, 1).history == After(m.history, b.cond, m.np.fail)
  {
    hide Step, Run, Shape, ViewOf, Holds;
    LoopLayout(prog, m.pc, b);
    StepLoop(w, prog, m, depth, b.until, b.cond);
    RunOne(w, prog, m);
  }

  /** So a loop whose body has a bare loop does not mean what it says: whenever its condition
      asks for no pass at all, the machine still runs the condition of the inner loop. */
  lemma BareLoopDeparts(w: World, b: Block, prog: seq<Item>, np: Parser, h: History, depth: nat) returns (n: nat)
    requires b.Loop? && b.next.Nil? && !NoBareLoop(b.body) && WellWorded(b)
    requires AtRest(np, depth) && IfDepth(b) < depth && LoopDepth(b) < depth && IsScript(prog, b)
    requires RunCommand(w, b.cond, State(h, np.fail)).fail != b.until
    ensures Exec(w, b, false, State(h, np.fail), 1) == Result(Normal, State(After(h, b.cond, np.fail), false))
    ensures Run(w, prog, Start(np, h), n).history ==
            After(After(h, b.cond, np.fail), FirstBareLoop(b.body).cond, false)
  {
    hide Step, Run, Shape, ViewOf, Flatten;
    var m := Start(np, h);
    assert Before(prog, m, depth, b) by {
      assert Holds(prog, 0, Flatten(b));
      RestView(m, depth);
    }
    RestView(m, depth);
    LoopLayout(prog, 0, b);
    StepLoop(w, prog, m, depth, b.until, b.cond);
    RunOne(w, prog, m);
    SkipCarrier(w, prog, Run(w, prog, m, 1), depth, Do, b.doCmd);
    RunThenStep(w, prog, m, 1);
    n := BareLoopRuns(w, prog, Run(w, prog, m, 2), depth, b.body);
    RunSplits(w, prog, m, 2, n);
    n := 2 + n;
  }

  /** Whatever commands do, wherever lines end and at whatever moment one looks, the machine has
      run no command that the meaning of the script does not run. */
  ghost predicate KeepsToMeaning(b: Block, depth: nat) {
    forall w: World, prog: seq<Item>, np: Parser, h: History, fuel: nat, n: nat
      | AtRest(np, depth) && IsScript(prog, b) && KeepsLines(w, prog)
        && Exec(w, b, false, State(h, np.fail), fuel).Result? ::
        Run(w, prog, Start(np, h), n).history <= Exec(w, b, false, State(h, np.fail), fuel).s.history
  }

  lemma RunnableKeepsToMeaning(w: World, b: Block, prog: seq<Item>, np: Parser, h: History, depth: nat, fuel: nat,
                               n: nat)
    requires AtRest(np, depth) && Runnable(b, depth) && IsScript(prog, b) && KeepsLines(w, prog)
    requires Exec(w, b, false, State(h, np.fail), fuel).Result?
    ensures Run(w, prog, Start(np, h), n).history <= Exec(w, b, false, State(h, np.fail), fuel).s.history
  {
    hide Acts, Exec, Run, Runnable, Readable, IsScript, KeepsLines;
    RunnableActsAsMeant(w, b, depth, State(h, np.fail), fuel);
    RunKeepsToActs(w, b, prog, np, h, depth, fuel, n);
  }

  /** A loop, runnable but for loops that stand bare in its body, keeps to its meaning exactly if
      there is no such loop. */
  lemma LoopKeepsToMeaningIff(b: Block, depth: nat)
    requires b.Loop? && b.next.Nil? && WellWorded(b) && IfDepth(b) < depth && LoopDepth(b) < depth
    requires NoBareLoop(b.body) ==> PlacedAfter(b.doCmd, b.body, Body(false))
    ensures KeepsToMeaning(b, depth) <==> NoBareLoop(b.body)
  {
    hide Exec, Run;
    if NoBareLoop(b.body) {
      assert Placed(b.next, Outside);
      assert Runnable(b, depth);
      forall w: World, prog: seq<Item>, np: Parser, h: History, fuel: nat, n: nat
        | AtRest(np, depth) && IsScript(prog, b) && KeepsLines(w, prog)
          && Exec(w, b, false, State(h, np.fail), fuel).Result?
        ensures Run(w, prog, Start(np, h), n).history <= Exec(w, b, false, State(h, np.fail), fuel).s.history
      {
        RunnableKeepsToMeaning(w, b, prog, np, h, depth, fuel, n);
      }
    } else {
      var w := World(_ => !b.until, _ => false);
      var prog := seq(|Flatten(b)|, i requires 0 <= i < |Flatten(b)| => Item(Flatten(b)[i], true));
      var np := Initial(depth);
      var n := BareLoopDeparts(w, b, prog, np, [], depth);
      assert !(Run(w, prog, Start(np, []), n).history <= Exec(w, b, false, State([], np.fail), 1).s.history);
    }
  }

  // ----- `break` inside an if of its loop -----

  datatype Loss = NoLoss | Loss(s: State, fuel: nat)

  /** The state in which a pass over loop b first ends by a `break` inside an if, and the fuel
      that the meaning of the loop has left then. */
  function FirstLoss(w: World, b: Block, s: State, fuel: nat): Loss
    requires b.Loop?
    decreases fuel
  {
    if fuel == 0 then NoLoss
    else
      var s' := RunCommand(w, b.cond, s);
      if s'.fail != b.until then NoLoss
      else
        var r := Exec(w, Head(b.doCmd, b.body), true, s'.(fail := false), fuel - 1);
        if r.Timeout? || r.out == Stopped || r.out == Broke(false) then NoLoss
        else if r.out == Broke(true) then Loss(r.s, fuel - 1)
        else FirstLoss(w, b, r.s, fuel - 1)
  }

  /** The meaning goes on after the loop, as it does after any `break`. */
  lemma {:induction false} MeaningGoesOn(w: World, b: Block, inLoop: bool, s: State, fuel: nat)
    requires b.Loop? && FirstLoss(w, b, s, fuel).Loss?
    ensures var loss := FirstLoss(w, b, s, fuel);
            Exec(w, b, inLoop, s, fuel) == Exec(w, b.next, inLoop, loss.s, loss.fuel)
    decreases fuel
  {
    hide Exec;
    ExecLoop(w, b, inLoop, s, fuel);
    var s' := RunCommand(w, b.cond, s);
    var r := Exec(w, Head(b.doCmd, b.body), true, s'.(fail := false), fuel - 1);
    if r.out == Normal {
      MeaningGoesOn(w, b, inLoop, r.s, fuel - 1);
    }
  }

  /** Loop b is next, outside of all ifs, and is fit to run but for `break`s inside its ifs. */
  predicate AtLooseLoop(prog: seq<Item>, m: Machine, depth: nat, b: Block) {
    && b.Loop? && Before(prog, m, depth, b) && PlacedAfter(b.doCmd, b.body, Body(true))
    && On(ViewOf(m)) && ViewOf(m).ie.level.state == ItefNormal
  }

  /** But the machine stops, at the `else` or `fi` that ends the branch with the `break`. */
  lemma {:induction false} LossStops(w: World, prog: seq<Item>, m: Machine, depth: nat, b: Block, fuel: nat)
    returns (n: nat)
    requires Steady(w, prog, Body(true)) && AtLooseLoop(prog, m, depth, b)
    requires FirstLoss(w, b, StateOf(ViewOf(m)), fuel).Loss?
    ensures var m' := Run(w, prog, m, n);
            m'.stopped && m'.np.fail && m'.history == FirstLoss(w, b, StateOf(ViewOf(m)), fuel).s.history
    decreases fuel
  {
    hide Step, Run, Shape, ViewOf, Holds, Flatten, WellWorded, IfDepth, LoopDepth, Placed, Exec, Acts, Fits, Steady;
    var v := ViewOf(m);
    var s := RunCommand(w, b.cond, StateOf(v));
    var r := Exec(w, Head(b.doCmd, b.body), true, s.(fail := false), fuel - 1);
    PlacedIsSound(b.doCmd, b.body, Body(true));
    HeadPlaced(b.doCmd, b.body, Body(true));
    PlacedActsAsMeant(w, Head(b.doCmd, b.body), Body(true), s.(fail := false), fuel - 1);
    n := EnterLoop(w, prog, m, depth, b, true, fuel);
    if r.out == Normal {
      LoopLayout(prog, m.pc, b);
      n := CloseLoop(w, prog, m, n, depth, v, LoopLevel(LoopDo, true, Height(v.ie) - 1, m.pc),
                     m.pc + 2 + |Flatten(b.body)|, r, true, fuel);
      var k := LossStops(w, prog, Run(w, prog, m, n), depth, b, fuel - 1);
      RunSplits(w, prog, m, n, k);
      n := n + k;
    }
  }

  /** If the meaning of a loop at rest comes, in any of its passes, to a `break` inside an if of
      the loop, then the machine stops there with a failure, and the meaning goes on with what
      follows the loop. */
  lemma BreakInIfStops(w: World, b: Block, prog: seq<Item>, np: Parser, h: History, depth: nat, fuel: nat)
    returns (n: nat)
    requires b.Loop? && WellWorded(b) && IfDepth(b) < depth && LoopDepth(b) < depth
    requires PlacedAfter(b.doCmd, b.body, Body(true)) && AtRest(np, depth) && IsScript(prog, b)
    requires Steady(w, prog, Body(true)) && FirstLoss(w, b, State(h, np.fail), fuel).Loss?
    ensures var m := Run(w, prog, Start(np, h), n);
            var loss := FirstLoss(w, b, State(h, np.fail), fuel);
            && m.stopped && m.np.fail && m.history == loss.s.history
            && Exec(w, b, false, State(h, np.fail), fuel) == Exec(w, b.next, false, loss.s, loss.fuel)
  {
    hide Exec, Run, WellWorded, PlacedAfter, Steady, FirstLoss;
    RestView(Start(np, h), depth);
    assert Holds(prog, 0, Flatten(b));
    n := LossStops(w, prog, Start(np, h), depth, b, fuel);
    MeaningGoesOn(w, b, false, State(h, np.fail), fuel);
  }

  /** `while c; do if d; then break; fi; done; x`. */
  function BreakScript(c: seq<Token>, d: seq<Token>, x: seq<Token>): Block {
    Loop(false, c, [], Cond(false, d, [], Cmd([Break], Nil), false, [], Nil, Nil), Cmd(x, Nil))
  }

  lemma BreakScriptIsFit(c: seq<Token>, d: seq<Token>, x: seq<Token>)
    requires LoopCondition(c) && IfCondition(d) && Plain(x)
    ensures var b := BreakScript(c, d, x);
            WellWorded(b) && IfDepth(b) == 1 && LoopDepth(b) == 1 && PlacedAfter([], b.body, Body(true))
  {
    var b := BreakScript(c, d, x);
    var branch := Cmd([Break], Nil);
    assert Plain([Break]) && WellWorded(branch) && IfDepth(branch) == 0 && LoopDepth(branch) == 0;
    assert PlacedAfter([Break], Nil, InIf(true)) && PlacedAfter([], branch, InIf(true));
    assert WellWorded(b.body) && IfDepth(b.body) == 1 && LoopDepth(b.body) == 0 && Placed(b.body, Body(true));
    assert WellWorded(b.next) && IfDepth(b.next) == 0 && LoopDepth(b.next) == 0;
  }

  /** `while c; do if d; then break; fi; done; x`, where everything succeeds: the machine stops
      after d with a failure, and x, which the meaning runs, is never run. */
  lemma BreakInIfExample(c: seq<Token>, d: seq<Token>, x: seq<Token>, np: Parser) returns (n: nat)
    requires LoopCondition(c) && IfCondition(d) && Plain(x) && !IsBreak(x) && AtRest(np, 2)
    ensures var b := BreakScript(c, d, x);
            var w := World(_ => false, _ => false);
            var prog := seq(|Flatten(b)|, i requires 0 <= i < |Flatten(b)| => Item(Flatten(b)[i], true));
            var events := [Event(c, np.fail), Event(d, false)];
            && Exec(w, b, false, State([], np.fail), 4) == Result(Normal, State(events + [Event(x, false)], false))
            && Run(w, prog, Start(np, []), n).stopped && Run(w, prog, Start(np, []), n).history == events
  {
    var b := BreakScript(c, d, x);
    var w := World(_ => false, _ => false);
    var prog := seq(|Flatten(b)|, i requires 0 <= i < |Flatten(b)| => Item(Flatten(b)[i], true));
    var s := State([Event(c, np.fail)], false);
    var t := State([Event(c, np.fail), Event(d, false)], false);
    assert Exec(w, b.body.thn, true, t, 2) == Result(Broke(false), t);
    assert RunCommand(w, d, s) == t;
    assert Exec(w, b.body, true, s, 3) == Result(Broke(true), t);
    assert RunCommand(w, c, State([], np.fail)) == s;
    assert FirstLoss(w, b, State([], np.fail), 4) == Loss(t, 3);
    BreakScriptIsFit(c, d, x);
    n := BreakInIfStops(w, b, prog, np, [], 2, 4);
  }

  // ----- Steering the meaning of a block -----

  /** More fuel does not change a result. */
  lemma {:induction false} ExecMonotone(w: World, b: Block, inLoop: bool, s: State, fuel: nat, more: nat)
    requires Exec(w, b, inLoop, s, fuel).Result? && fuel <= more
    ensures Exec(w, b, inLoop, s, more) == Exec(w, b, inLoop, s, fuel)
    decreases fuel
  {
    match b
    case Nil =>
    case Cmd(c, next) =>
      var s' := if IsBreak(c) then s.(fail := false) else RunCommand(w, c, s);
      if Exec(w, next, inLoop, s', fuel - 1).Result? {
        ExecMonotone(w, next, inLoop, s', fuel - 1, more - 1);
      }
    case Cond(inverted, cond, thenCmd, thn, hasElse, elseCmd, els, next) =>
      var s' := RunCommand(w, cond, s);
      var branch := if s'.fail == inverted then Head(thenCmd, thn) else if hasElse then Head(elseCmd, els) else Nil;
      ExecMonotone(w, branch, inLoop, s'.(fail := false), fuel - 1, more - 1);
      var r := Exec(w, branch, inLoop, s'.(fail := false), fuel - 1);
      if r.out == Normal {
        ExecMonotone(w, next, inLoop, r.s, fuel - 1, more - 1);
      }
    case Loop(until, cond, doCmd, body, next) =>
      var s' := RunCommand(w, cond, s);
      if s'.fail != until {
        ExecMonotone(w, next, inLoop, s'.(fail := false), fuel - 1, more - 1);
      } else {
        ExecMonotone(w, Head(doCmd, body), true, s'.(fail := false), fuel - 1, more - 1);
        var r := Exec(w, Head(doCmd, body), true, s'.(fail := false), fuel - 1);
        if r.out != Stopped {
          ExecMonotone(w, if r.out == Normal then b else next, inLoop, r.s, fuel - 1, more - 1);
        }
      }
  }

  /** Outcomes of the commands that follow the first k, one after the other. */
  ghost predicate Follows(w: World, k: nat, bits: seq<bool>) {
    forall h: History | k < |h| <= k + |bits| :: w.fails(h) == bits[|h| - k - 1]
  }

  lemma FollowsSplit(w: World, k: nat, a: seq<bool>, b: seq<bool>)
    requires Follows(w, k, a + b)
    ensures Follows(w, k, a) && Follows(w, k + |a|, b)
  {
    forall h: History | k < |h| <= k + |a|
      ensures w.fails(h) == a[|h| - k - 1]
    {
      assert (a + b)[|h| - k - 1] == a[|h| - k - 1];
    }
    forall h: History | k + |a| < |h| <= k + |a| + |b|
      ensures w.fails(h) == b[|h| - (k + |a|) - 1]
    {
      assert (a + b)[|h| - k - 1] == b[|h| - k - 1 - |a|];
    }
  }

  lemma FollowsOne(w: World, bit: bool, s: State, c: seq<Token>)
    requires Follows(w, |s.history|, [bit])
    ensures RunCommand(w, c, s).fail == bit && |RunCommand(w, c, s).history| == |s.history| + 1
  {
  }

  /** The world in which commands have these outcomes and later ones succeed, without `set +e`. */
  function Steering(bits: seq<bool>): World {
    World(h => 0 < |h| <= |bits| && bits[|h| - 1], _ => false)
  }

  lemma SteeringFollows(bits: seq<bool>)
    ensures Follows(Steering(bits), 0, bits) && forall h: History :: !Steering(bits).ignores(h)
  {
  }

  /** No `break` of the surrounding loop is in block b. */
  predicate BreakFree(b: Block)
    decreases b, 0
  {
    match b
    case Nil => true
    case Cmd(c, next) => BreakFreeAfter(c, next)
    case Cond(_, _, thenCmd, thn, hasElse, elseCmd, els, next) =>
      BreakFreeAfter(thenCmd, thn) && (hasElse ==> BreakFreeAfter(elseCmd, els)) && BreakFree(next)
    case Loop(_, _, _, _, next) => BreakFree(next)
  }

  predicate BreakFreeAfter(c: seq<Token>, b: Block)
    decreases b, 1
  {
    !IsBreak(c) && BreakFree(b)
  }

  /** A `break` stands in an if of this list of statements, before any `break` of the list. */
  predicate LiveBreakInIf(b: Block) {
    match b
    case Nil => false
    case Cmd(c, next) => !IsBreak(c) && LiveBreakInIf(next)
    case Cond(_, _, thenCmd, thn, hasElse, elseCmd, els, next) =>
      !BreakFreeAfter(thenCmd, thn) || (hasElse && !BreakFreeAfter(elseCmd, els)) || LiveBreakInIf(next)
    case Loop(_, _, _, _, next) => LiveBreakInIf(next)
  }

  predicate LiveAfter(c: seq<Token>, b: Block) {
    !IsBreak(c) && LiveBreakInIf(b)
  }

  lemma {:induction false} LiveIsNotFree(b: Block)
    requires LiveBreakInIf(b)
    ensures !BreakFree(b)
  {
    match b
    case Cmd(_, next) => LiveIsNotFree(next);
    case Cond(_, _, _, _, _, _, _, next) =>
      if LiveBreakInIf(next) {
        LiveIsNotFree(next);
      }
    case Loop(_, _, _, _, next) => LiveIsNotFree(next);
  }

  /** The shortest outcomes with which block b comes to its end, or to its `break`, without a
      failure. */
  function Quit(b: Block, inLoop: bool): seq<bool>
    decreases b, 2
  {
    match b
    case Nil => []
    case Cmd(c, next) => QuitAfter(c, next, inLoop)
    case Cond(_, _, _, _, _, _, _, next) => QuitCond(b, inLoop) + Quit(next, inLoop)
    case Loop(until, _, _, _, next) => [!until] + Quit(next, inLoop)
  }

  function QuitAfter(c: seq<Token>, b: Block, inLoop: bool): seq<bool>
    decreases b, 3
  {
    if IsBreak(c) && inLoop then [] else First(c) + Quit(b, inLoop)
  }

  /** The outcome of a command that may be missing. */
  function First(c: seq<Token>): seq<bool> {
    if c == [] || IsBreak(c) then [] else [false]
  }

  /** The then part of a conditional is not longer than its else part. */
  predicate ThenIsShorter(b: Block, inLoop: bool)
    requires b.Cond?
    decreases b, 0
  {
    |QuitAfter(b.thenCmd, b.thn, inLoop)| <= if b.hasElse then |QuitAfter(b.elseCmd, b.els, inLoop)| else 0
  }

  /** A conditional up to its `fi`, by the shorter of its branches. */
  function QuitCond(b: Block, inLoop: bool): seq<bool>
    requires b.Cond?
    decreases b, 1
  {
    if ThenIsShorter(b, inLoop) then [b.inverted] + QuitAfter(b.thenCmd, b.thn, inLoop)
    else [!b.inverted] + if b.hasElse then QuitAfter(b.elseCmd, b.els, inLoop) else []
  }

  /** How a block ends that neither fails nor stops, if it has no `break` inside an if. */
  function Ending(b: Block, inLoop: bool): Outcome {
    if inLoop && !BreakFree(b) then Broke(false) else Normal
  }

  function EndingAfter(c: seq<Token>, b: Block, inLoop: bool): Outcome {
    if inLoop && !BreakFreeAfter(c, b) then Broke(false) else Normal
  }

  lemma {:induction false} QuitEnds(w: World, b: Block, inLoop: bool, s: State) returns (fuel: nat, t: State)
    requires WellWorded(b) && Follows(w, |s.history|, Quit(b, inLoop)) && (inLoop ==> !LiveBreakInIf(b))
    ensures Exec(w, b, inLoop, s, fuel) == Result(Ending(b, inLoop), t)
    ensures |t.history| == |s.history| + |Quit(b, inLoop)|
    decreases b, 2
  {
    hide Exec, Follows, RunCommand;
    match b
    case Nil =>
      fuel, t := 0, s;
      ExecNothing(w, inLoop, s, 0);
    case Cmd(c, next) =>
      fuel, t := QuitAfterEnds(w, c, next, inLoop, s);
    case Cond(_, _, _, _, _, _, _, _) =>
      fuel, t := QuitCondEnds(w, b, inLoop, s);
    case Loop(until, cond, _, _, next) =>
      FollowsSplit(w, |s.history|, [!until], Quit(next, inLoop));
      FollowsOne(w, !until, s, cond);
      fuel, t := QuitEnds(w, next, inLoop, RunCommand(w, cond, s).(fail := false));
      fuel := fuel + 1;
      ExecLoop(w, b, inLoop, s, fuel);
  }

  lemma {:induction false} QuitCondEnds(w: World, b: Block, inLoop: bool, s: State) returns (fuel: nat, t: State)
    requires b.Cond? && WellWorded(b) && Follows(w, |s.history|, Quit(b, inLoop)) && (inLoop ==> !LiveBreakInIf(b))
    ensures Exec(w, b, inLoop, s, fuel) == Result(Ending(b, inLoop), t)
    ensures |t.history| == |s.history| + |Quit(b, inLoop)|
    decreases b, 1
  {
    hide Exec, Follows, RunCommand, QuitCond;
    FollowsSplit(w, |s.history|, QuitCond(b, inLoop), Quit(b.next, inLoop));
    var f, u := QuitBranchEnds(w, b, inLoop, s);
    var g, t' := QuitEnds(w, b.next, inLoop, u);
    fuel, t := 1 + Max(f, g), t';
    BranchAndOn(w, b, inLoop, s, u, f, g, Result(Ending(b, inLoop), t));
  }

  function Branch(w: World, b: Block, s: State): Block
    requires b.Cond?
  {
    if RunCommand(w, b.cond, s).fail == b.inverted then Head(b.thenCmd, b.thn)
    else if b.hasElse then Head(b.elseCmd, b.els) else Nil
  }

  /** No `break` of the surrounding loop is in the branches of a conditional. */
  predicate BranchesBreakFree(b: Block)
    requires b.Cond?
  {
    BreakFreeAfter(b.thenCmd, b.thn) && (b.hasElse ==> BreakFreeAfter(b.elseCmd, b.els))
  }

  /** The branch that is taken, up to `fi`. */
  lemma {:induction false} QuitBranchEnds(w: World, b: Block, inLoop: bool, s: State) returns (fuel: nat, t: State)
    requires b.Cond? && WellWorded(b) && Follows(w, |s.history|, QuitCond(b, inLoop))
    requires inLoop ==> BranchesBreakFree(b)
    ensures var s' := RunCommand(w, b.cond, s).(fail := false);
            Exec(w, Branch(w, b, s), inLoop, s', fuel) == Result(Normal, t)
    ensures |t.history| == |s.history| + |QuitCond(b, inLoop)|
    decreases b, 0
  {
    hide Exec, Follows, RunCommand, QuitAfter, LiveBreakInIf;
    var s' := RunCommand(w, b.cond, s).(fail := false);
    if ThenIsShorter(b, inLoop) {
      FollowsSplit(w, |s.history|, [b.inverted], QuitAfter(b.thenCmd, b.thn, inLoop));
      FollowsOne(w, b.inverted, s, b.cond);
      FreeHasNoLiveBreak(b.thenCmd, b.thn);
      fuel, t := QuitAfterEnds(w, b.thenCmd, b.thn, inLoop, s');
    } else {
      var quit := if b.hasElse then QuitAfter(b.elseCmd, b.els, inLoop) else [];
      FollowsSplit(w, |s.history|, [!b.inverted], quit);
      FollowsOne(w, !b.inverted, s, b.cond);
      if b.hasElse {
        FreeHasNoLiveBreak(b.elseCmd, b.els);
        fuel, t := QuitAfterEnds(w, b.elseCmd, b.els, inLoop, s');
      } else {
        fuel, t := 0, s';
        ExecNothing(w, inLoop, s', 0);
      }
    }
  }

  lemma FreeHasNoLiveBreak(c: seq<Token>, b: Block)
    ensures BreakFreeAfter(c, b) ==> !LiveAfter(c, b)
  {
    if LiveBreakInIf(b) {
      LiveIsNotFree(b);
    }
  }

  /** The branch that is taken ends normally, and then comes the rest. */
  lemma BranchAndOn(w: World, b: Block, inLoop: bool, s: State, u: State, f: nat, g: nat, r: Result)
    requires b.Cond? && r.Result?
    requires var s' := RunCommand(w, b.cond, s).(fail := false);
             Exec(w, Branch(w, b, s), inLoop, s', f) == Result(Normal, u)
    requires Exec(w, b.next, inLoop, u, g) == r
    ensures Exec(w, b, inLoop, s, 1 + Max(f, g)) == r
  {
    hide Exec;
    var s' := RunCommand(w, b.cond, s).(fail := false);
    ExecMonotone(w, Branch(w, b, s), inLoop, s', f, Max(f, g));
    ExecMonotone(w, b.next, inLoop, u, g, Max(f, g));
    ExecCond(w, b, inLoop, s, 1 + Max(f, g));
  }

  lemma {:induction false} QuitAfterEnds(w: World, c: seq<Token>, b: Block, inLoop: bool, s: State)
    returns (fuel: nat, t: State)
    requires WellWorded(b) && Follows(w, |s.history|, QuitAfter(c, b, inLoop)) && (inLoop ==> !LiveAfter(c, b))
    ensures Exec(w, Head(c, b), inLoop, s, fuel) == Result(EndingAfter(c, b, inLoop), t)
    ensures |t.history| == |s.history| + |QuitAfter(c, b, inLoop)|
    decreases b, 3
  {
    hide Exec, Follows, RunCommand;
    if c == [] {
      assert QuitAfter(c, b, inLoop) == Quit(b, inLoop);
      fuel, t := QuitEnds(w, b, inLoop, s);
    } else if IsBreak(c) && inLoop {
      fuel, t := 1, s.(fail := false);
      ExecCmd(w, c, b, inLoop, s, fuel);
    } else if IsBreak(c) {
      assert QuitAfter(c, b, inLoop) == Quit(b, inLoop);
      fuel, t := QuitEnds(w, b, inLoop, s.(fail := false));
      fuel := fuel + 1;
      ExecCmd(w, c, b, inLoop, s, fuel);
    } else {
      FollowsSplit(w, |s.history|, [false], Quit(b, inLoop));
      FollowsOne(w, false, s, c);
      fuel, t := QuitEnds(w, b, inLoop, RunCommand(w, c, s));
      fuel := fuel + 1;
      ExecCmd(w, c, b, inLoop, s, fuel);
    }
  }

  /** Outcomes that lead to the first `break` of block b. */
  function ToBreak(b: Block): seq<bool>
    requires !BreakFree(b)
    decreases b, 0
  {
    match b
    case Cmd(c, next) => ToBreakAfter(c, next)
    case Cond(inverted, _, thenCmd, thn, hasElse, elseCmd, els, next) =>
      if !BreakFreeAfter(thenCmd, thn) then [inverted] + ToBreakAfter(thenCmd, thn)
      else if hasElse && !BreakFreeAfter(elseCmd, els) then [!inverted] + ToBreakAfter(elseCmd, els)
      else QuitCond(b, true) + ToBreak(next)
    case Loop(until, _, _, _, next) => [!until] + ToBreak(next)
  }

  function ToBreakAfter(c: seq<Token>, b: Block): seq<bool>
    requires !BreakFreeAfter(c, b)
    decreases b, 1
  {
    if IsBreak(c) then [] else (if c == [] then [] else [false]) + ToBreak(b)
  }

  /** The first `break` of a block in a loop is reached, inside an if or not. */
  lemma {:induction false} BreakReached(w: World, b: Block, s: State) returns (fuel: nat, t: State)
    requires WellWorded(b) && !BreakFree(b) && Follows(w, |s.history|, ToBreak(b))
    ensures Exec(w, b, true, s, fuel) == Result(Broke(LiveBreakInIf(b)), t)
    ensures |t.history| == |s.history| + |ToBreak(b)|
    decreases b, 1
  {
    hide Exec, Follows, RunCommand, QuitCond, ToBreakAfter, Quit;
    match b
    case Cmd(c, next) =>
      fuel, t := BreakReachedAfter(w, c, next, s);
    case Cond(_, _, thenCmd, thn, hasElse, elseCmd, els, _) =>
      if !BreakFreeAfter(thenCmd, thn) {
        fuel, t := BreakReachedIn(w, b, true, s);
      } else if hasElse && !BreakFreeAfter(elseCmd, els) {
        fuel, t := BreakReachedIn(w, b, false, s);
      } else {
        fuel, t := BreakReachedNext(w, b, s);
      }
    case Loop(until, cond, _, _, next) =>
      FollowsSplit(w, |s.history|, [!until], ToBreak(next));
      FollowsOne(w, !until, s, cond);
      fuel, t := BreakReached(w, next, RunCommand(w, cond, s).(fail := false));
      fuel := fuel + 1;
      ExecLoop(w, b, true, s, fuel);
  }

  /** A `break` in the then or else part of a conditional. */
  lemma {:induction false} BreakReachedIn(w: World, b: Block, inThen: bool, s: State) returns (fuel: nat, t: State)
    requires b.Cond? && WellWorded(b) && (inThen || b.hasElse)
    requires !BreakFreeAfter(if inThen then b.thenCmd else b.elseCmd, if inThen then b.thn else b.els)
    requires var path := ToBreakAfter(if inThen then b.thenCmd else b.elseCmd, if inThen then b.thn else b.els);
             Follows(w, |s.history|, [b.inverted == inThen] + path)
    ensures Exec(w, b, true, s, fuel) == Result(Broke(true), t)
    ensures |t.history| ==
            |s.history| + 1 + |ToBreakAfter(if inThen then b.thenCmd else b.elseCmd, if inThen then b.thn else b.els)|
    decreases b, 0
  {
    hide Exec, Follows, RunCommand;
    var c := if inThen then b.thenCmd else b.elseCmd;
    var branch := if inThen then b.thn else b.els;
    FollowsSplit(w, |s.history|, [b.inverted == inThen], ToBreakAfter(c, branch));
    FollowsOne(w, b.inverted == inThen, s, b.cond);
    fuel, t := BreakReachedAfter(w, c, branch, RunCommand(w, b.cond, s).(fail := false));
    fuel := fuel + 1;
    ExecCond(w, b, true, s, fuel);
  }

  /** A conditional without a `break`, and then the first `break` after it. */
  lemma {:induction false} BreakReachedNext(w: World, b: Block, s: State) returns (fuel: nat, t: State)
    requires b.Cond? && WellWorded(b) && !BreakFree(b.next) && BranchesBreakFree(b)
    requires Follows(w, |s.history|, QuitCond(b, true) + ToBreak(b.next))
    ensures fuel > 0 && Exec(w, b, true, s, fuel) == Result(Broke(LiveBreakInIf(b.next)), t)
    ensures |t.history| == |s.history| + |QuitCond(b, true)| + |ToBreak(b.next)|
    decreases b, 0
  {
    hide Exec, Follows, RunCommand, QuitCond, ToBreak, BreakFree;
    FollowsSplit(w, |s.history|, QuitCond(b, true), ToBreak(b.next));
    var f, u := QuitBranchEnds(w, b, true, s);
    var g, t' := BreakReached(w, b.next, u);
    fuel, t := 1 + Max(f, g), t';
    BranchAndOn(w, b, true, s, u, f, g, Result(Broke(LiveBreakInIf(b.next)), t));
  }

  lemma {:induction false} BreakReachedAfter(w: World, c: seq<Token>, b: Block, s: State) returns (fuel: nat, t: State)
    requires WellWorded(b) && !BreakFreeAfter(c, b) && Follows(w, |s.history|, ToBreakAfter(c, b))
    ensures Exec(w, Head(c, b), true, s, fuel) == Result(Broke(LiveAfter(c, b)), t)
    ensures |t.history| == |s.history| + |ToBreakAfter(c, b)|
    decreases b, 2
  {
    hide Exec, Follows, RunCommand, ToBreak, BreakFree, LiveBreakInIf, WellWorded;
    if IsBreak(c) {
      fuel, t := 1, s.(fail := false);
      ExecCmd(w, c, b, true, s, 1);
    } else if c == [] {
      assert ToBreakAfter(c, b) == ToBreak(b);
      fuel, t := BreakReached(w, b, s);
    } else {
      FollowsSplit(w, |s.history|, [false], ToBreak(b));
      FollowsOne(w, false, s, c);
      fuel, t := BreakReached(w, b, RunCommand(w, c, s));
      fuel := fuel + 1;
      ExecCmd(w, c, b, true, s, fuel);
    }
  }

  // ----- Which loops end as their meaning says -----

  /** Whatever commands do and wherever lines end: if the meaning of the script terminates and the
      machine has halted, it has halted as the meaning says. */
  ghost predicate EndsAsMeant(b: Block, depth: nat) {
    forall w: World, prog: seq<Item>, np: Parser, h: History, fuel: nat, n: nat
      | AtRest(np, depth) && IsScript(prog, b) && KeepsLines(w, prog)
        && Exec(w, b, false, State(h, np.fail), fuel).Result?
        && Halted(prog, Run(w, prog, Start(np, h), n)) ::
        Final(prog, Run(w, prog, Start(np, h), n), depth, Exec(w, b, false, State(h, np.fail), fuel))
  }

  /** A branch without `break` is strictly placed. */
  lemma {:induction false} BranchIsStrict(c: seq<Token>, b: Block)
    requires PlacedAfter(c, b, InIf(true)) && BreakFreeAfter(c, b)
    ensures PlacedAfter(c, b, InIf(false))
    decreases b
  {
    match b
    case Nil =>
    case Cmd(c', next) => BranchIsStrict(c', next);
    case Cond(_, _, thenCmd, thn, hasElse, elseCmd, els, next) =>
      BranchIsStrict(thenCmd, thn);
      if hasElse {
        BranchIsStrict(elseCmd, els);
      }
      BranchIsStrict([], next);
    case Loop(_, _, _, _, next) => BranchIsStrict([], next);
  }

  lemma {:induction false} BodyIsStrict(c: seq<Token>, b: Block)
    requires PlacedAfter(c, b, Body(true)) && !LiveAfter(c, b)
    ensures PlacedAfter(c, b, Body(false))
    decreases b
  {
    if !IsBreak(c) {
      match b
      case Nil =>
      case Cmd(c', next) => BodyIsStrict(c', next);
      case Cond(_, _, thenCmd, thn, hasElse, elseCmd, els, next) =>
        BranchIsStrict(thenCmd, thn);
        if hasElse {
          BranchIsStrict(elseCmd, els);
        }
        BodyIsStrict([], next);
    }
  }

  lemma LossInPass(w: World, b: Block, s: State, t: State, fuel: nat)
    requires b.Loop? && fuel > 0 && RunCommand(w, b.cond, s).fail == b.until
    requires var s' := RunCommand(w, b.cond, s).(fail := false);
             Exec(w, Head(b.doCmd, b.body), true, s', fuel - 1) == Result(Broke(true), t)
    ensures FirstLoss(w, b, s, fuel) == Loss(t, fuel - 1)
  {
  }

  /** On this path the meaning of the loop comes to a `break` inside an if, and ends. */
  lemma LossOnPath(w: World, b: Block, s: State) returns (fuel: nat)
    requires b.Loop? && WellWorded(b) && LiveAfter(b.doCmd, b.body) && !BreakFreeAfter(b.doCmd, b.body)
    requires Follows(w, |s.history|, [b.until] + ToBreakAfter(b.doCmd, b.body) + Quit(b.next, false))
    ensures FirstLoss(w, b, s, fuel).Loss?
    ensures Exec(w, b, false, s, fuel).Result? && Exec(w, b, false, s, fuel).out == Normal
  {
    hide Exec, Follows, RunCommand, ToBreakAfter, Quit, FirstLoss, BreakFreeAfter;
    FollowsSplit(w, |s.history|, [b.until] + ToBreakAfter(b.doCmd, b.body), Quit(b.next, false));
    FollowsSplit(w, |s.history|, [b.until], ToBreakAfter(b.doCmd, b.body));
    FollowsOne(w, b.until, s, b.cond);
    var s' := RunCommand(w, b.cond, s).(fail := false);
    var f, t := BreakReachedAfter(w, b.doCmd, b.body, s');
    var g, u := QuitEnds(w, b.next, false, t);
    fuel := 1 + Max(f, g);
    ExecMonotone(w, Head(b.doCmd, b.body), true, s', f, Max(f, g));
    ExecMonotone(w, b.next, false, t, g, Max(f, g));
    LossInPass(w, b, s, t, fuel);
    MeaningGoesOn(w, b, false, s, fuel);
  }

  /** There is a world with such a path. */
  lemma LossIsReached(b: Block, fail: bool) returns (w: World, fuel: nat)
    requires b.Loop? && WellWorded(b) && LiveAfter(b.doCmd, b.body)
    ensures forall h: History :: !w.ignores(h)
    ensures FirstLoss(w, b, State([], fail), fuel).Loss?
    ensures Exec(w, b, false, State([], fail), fuel).Result?
    ensures Exec(w, b, false, State([], fail), fuel).out == Normal
  {
    hide Exec, Follows, Steering, ToBreakAfter, Quit, FirstLoss;
    LiveIsNotFree(b.body);
    var bits := [b.until] + ToBreakAfter(b.doCmd, b.body) + Quit(b.next, false);
    w := Steering(bits);
    SteeringFollows(bits);
    fuel := LossOnPath(w, b, State([], fail));
  }

  /** A loop that is fit to run but for `break`s inside its ifs ends as its meaning says exactly if
      no such `break` comes before a `break` of the body itself. */
  lemma LoopEndsAsMeantIff(b: Block, depth: nat)
    requires b.Loop? && WellWorded(b) && IfDepth(b) < depth && LoopDepth(b) < depth
    requires PlacedAfter(b.doCmd, b.body, Body(true)) && Placed(b.next, Outside)
    ensures EndsAsMeant(b, depth) <==> !LiveAfter(b.doCmd, b.body)
  {
    hide Exec, Run;
    if LiveAfter(b.doCmd, b.body) {
      var np := Initial(depth);
      var w, fuel := LossIsReached(b, np.fail);
      var prog := seq(|Flatten(b)|, i requires 0 <= i < |Flatten(b)| => Item(Flatten(b)[i], true));
      var n := BreakInIfStops(w, b, prog, np, [], depth, fuel);
      assert Halted(prog, Run(w, prog, Start(np, []), n));
      assert !Final(prog, Run(w, prog, Start(np, []), n), depth, Exec(w, b, false, State([], np.fail), fuel));
    } else {
      BodyIsStrict(b.doCmd, b.body);
      assert Runnable(b, depth);
      forall w: World, prog: seq<Item>, np: Parser, h: History, fuel: nat, n: nat
        | AtRest(np, depth) && IsScript(prog, b) && KeepsLines(w, prog)
          && Exec(w, b, false, State(h, np.fail), fuel).Result?
          && Halted(prog, Run(w, prog, Start(np, h), n))
        ensures Final(prog, Run(w, prog, Start(np, h), n), depth, Exec(w, b, false, State(h, np.fail), fuel))
      {
        ScriptMeansProgram(w, b, prog, np, h, depth, fuel, n);
      }
    }
  }

  // ----- Several commands on a line under `set +e` -----

  /** The commands of one line. */
  function LineOf(cs: seq<seq<Token>>): seq<Item> {
    seq(|cs|, i requires 0 <= i < |cs| => Item(cs[i], i == |cs| - 1))
  }

  function Sequence(cs: seq<seq<Token>>): Block {
    if cs == [] then Nil else Cmd(cs[0], Sequence(cs[1..]))
  }

  predicate PlainCommands(cs: seq<seq<Token>>) {
    forall c | c in cs :: Plain(c) && !IsBreak(c)
  }

  /** The first of the commands to fail is not the last one, and `set +e` is in force then. */
  predicate DropsRest(w: World, cs: seq<seq<Token>>, h: History, fail: bool)
    decreases |cs|
  {
    && |cs| > 1
    && var h1 := After(h, cs[0], fail);
       if w.fails(h1) then w.ignores(h1) else DropsRest(w, cs[1..], h1, false)
  }

  lemma {:induction false} LineEnds(cs: seq<seq<Token>>, i: nat)
    requires i < |cs|
    ensures NextLine(LineOf(cs), i) == |cs|
    decreases |cs| - i
  {
    if i + 1 < |cs| {
      LineEnds(cs, i + 1);
    }
  }

  lemma {:induction false} SequenceEnds(w: World, cs: seq<seq<Token>>, s: State)
    requires PlainCommands(cs)
    ensures var r := Exec(w, Sequence(cs), false, s, |cs|);
            r.Result? && |r.s.history| >= |s.history| && (cs != [] ==> |r.s.history| > |s.history|)
    decreases |cs|
  {
    if cs != [] {
      SequenceEnds(w, cs[1..], RunCommand(w, cs[0], s));
    }
  }

  lemma {:induction false} LineFrom(w: World, m: Machine, depth: nat, cs: seq<seq<Token>>, i: nat)
    requires Running(m, depth) && Ready(ViewOf(m)) && On(ViewOf(m)) && m.pc == i <= |cs| && PlainCommands(cs)
    ensures var r := Exec(w, Sequence(cs[i..]), false, StateOf(ViewOf(m)), |cs| - i);
            && r.Result?
            && (Run(w, LineOf(cs), m, |cs| - i).history == r.s.history
                <==> !DropsRest(w, cs[i..], m.history, m.np.fail))
    decreases |cs| - i
  {
    hide Step, Shape, ViewOf, Ready, On;
    var prog := LineOf(cs);
    if i < |cs| {
      var c, rest := cs[i], cs[i + 1..];
      assert cs[i..][0] == c && cs[i..][1..] == rest;
      var s := RunCommand(w, c, StateOf(ViewOf(m)));
      StepRunsPlain(w, prog, m, depth, c);
      LineEnds(cs, i);
      var m' := Step(w, prog, m);
      SequenceEnds(w, rest, s);
      if s.fail {
        HaltedStays(w, prog, m', |cs| - i - 1);
      } else {
        StillReady(ViewOf(m), ViewOf(m'));
        LineFrom(w, m', depth, cs, i + 1);
      }
    }
  }

  lemma StillReady(u: View, v: View)
    requires Ready(u) && On(u) && u.lp == v.lp && u.ie == v.ie
    ensures Ready(v) && On(v)
  {
  }

  /** A line of any number of plain commands, wherever processing is enabled: the machine runs what
      the meaning of the line says exactly if the first command to fail is the last one or fails
      without `set +e`. */
  lemma LineSurvivesIffNoIgnoredFailure(w: World, m: Machine, depth: nat, cs: seq<seq<Token>>)
    requires Running(m, depth) && Ready(ViewOf(m)) && On(ViewOf(m)) && m.pc == 0 && PlainCommands(cs)
    ensures var r := Exec(w, Sequence(cs), false, State(m.history, m.np.fail), |cs|);
            && r.Result?
            && (Run(w, LineOf(cs), m, |cs|).history == r.s.history <==> !DropsRest(w, cs, m.history, m.np.fail))
  {
    LineFrom(w, m, depth, cs, 0);
    assert cs[0..] == cs;
  }

  // ----- `fi` after `break`, wherever the loop stands -----

  /** After `break`, `fi` closes the if branch that it stands in exactly if that branch was
      opened before the loop was: never if the `fi` belongs to an if inside the loop. */
  lemma FiAfterBreakIff(w: World, np: Parser, h: History)
    requires Invariant(np) && CmdEnabled(np) && Top(np.lp).state == LoopDo && 0 < np.ie.ndx
    requires Top(np.ie).state == ItefThen || Top(np.ie).state == ItefElse
    ensures var broken := ParseCommand(w, np, h, [Break]);
            var closed := ParseCommand(w, broken.np, broken.history, [Fi]);
            closed.ok && closed.np.ie.ndx == np.ie.ndx - 1 <==> Top(np.lp).iendx == np.ie.ndx
  {
    hide CmdEnabled;
    PlainPasses(w, np, h, [Break]);
    var broken := ParseCommand(w, np, h, [Break]);
    BreakDropsIfs(w, np, h);
    FiCloses(w, broken.np, broken.history);
  }

  lemma BreakDropsIfs(w: World, np: Parser, h: History)
    requires Shape(np) && Top(np.lp).state == LoopDo
    ensures var r := Execute(w, np, h, [Break]);
            && r.np.ie.ndx == Top(np.lp).iendx && Top(r.np.ie).state == np.ie.levels[Top(np.lp).iendx].state
            && r.np.lp.ndx == np.lp.ndx && Top(r.np.lp).state == LoopDo
  {
  }

  lemma FiCloses(w: World, np: Parser, h: History)
    requires Shape(np) && !AwaitsDo(Top(np.lp).state)
    ensures var r := ParseCommand(w, np, h, [Fi]);
            && (r.ok ==> 0 < np.ie.ndx && r.np.ie.ndx == np.ie.ndx - 1)
            && ((Top(np.ie).state == ItefThen || Top(np.ie).state == ItefElse) && 0 < np.ie.ndx ==> r.ok)
  {
    hide CmdEnabled;
    LoopStagePasses(np, [Fi]);
    assert [Fi][1..] == [];
  }
}
