/** The theorems about whole scripts. */
module StructuredTheorems {
  import opened ParserState
  import opened ParserSafety
  import opened FlatMachine
  import opened Structured

  /** The parser is outside of every if and every loop. */
  predicate AtRest(np: Parser, depth: nat) {
    && Shape(np) && |np.lp.levels| == depth
    && np.lp.ndx == 0 && np.lp.levels[0].state == LoopNormal
    && np.ie.ndx == 0 && np.ie.levels[0] == ItefLevel(ItefNormal, false, false, false)
  }

  /** Script `prog` is the text of program b, in any arrangement of its commands on lines. */
  predicate IsScript(prog: seq<Item>, b: Block) {
    |prog| == |Flatten(b)| && forall i | 0 <= i < |prog| :: prog[i].words == Flatten(b)[i]
  }

  /** A program that NSH can read to its end. */
  predicate Readable(b: Block, depth: nat) {
    WellWorded(b) && Sound(b, Outside) && IfDepth(b) < depth && LoopDepth(b) < depth
  }

  /** A program that in addition has no loop directly inside a loop. */
  predicate Runnable(b: Block, depth: nat) {
    WellWorded(b) && Placed(b, Outside) && IfDepth(b) < depth && LoopDepth(b) < depth
  }

  lemma RunnableActsAsMeant(w: World, b: Block, depth: nat, s: State, fuel: nat)
    requires Runnable(b, depth)
    ensures Readable(b, depth) && Acts(w, b, false, s, fuel) == Exec(w, b, false, s, fuel)
  {
    PlacedIsSound([], b, Outside);
    PlacedActsAsMeant(w, b, Outside, s, fuel);
  }

  function Start(np: Parser, history: History): Machine {
    Machine(np, history, 0, false, false)
  }

  /** Machine m is where a script of meaning r leaves the parser. */
  predicate Final(prog: seq<Item>, m: Machine, depth: nat, r: Result) {
    && r.Result? && Shape(m.np)
    && m.history == r.s.history && m.np.fail == r.s.fail
    && (r.out == Stopped <==> m.stopped)
    && (r.out != Stopped ==> r.out == Normal && m.pc == |prog| && AtRest(m.np, depth))
    && m.ok == (r.out != Stopped && Succeeds(prog, r.s.fail))
  }

  /** What a script that has come to its end reports: success after `fi` and `done`, after a single
      command its status, and failure if there is no command at all. */
  predicate Succeeds(prog: seq<Item>, fail: bool) {
    prog != [] && (Plain(prog[|prog| - 1].words) ==> !fail)
  }

  lemma {:induction false} LastOfText(b: Block)
    requires WellWorded(b) && !b.Nil?
    ensures Flatten(b) != [] && (EndsInCommand(b) <==> Plain(Flatten(b)[|Flatten(b)| - 1]))
  {
    if b.next.Nil? {
      assert Flatten(b.next) == [];
    } else {
      LastOfText(b.next);
    }
  }

  lemma {:induction false} ActsAreReached(w: World, b: Block, prog: seq<Item>, np: Parser, h: History,
                                          depth: nat, fuel: nat)
    returns (n: nat)
    requires AtRest(np, depth) && Readable(b, depth) && IsScript(prog, b) && KeepsLines(w, prog)
    ensures var r := Acts(w, b, false, State(h, np.fail), fuel);
            var m := Run(w, prog, Start(np, h), n);
            && (r.Timeout? ==> n >= fuel && !Halted(prog, m))
            && (r.Result? ==> Halted(prog, m) && Final(prog, m, depth, r))
  {
    hide Step, Run, Acts, Readable, IsScript, Before, Fits, Flatten, KeepsLines, Final, Succeeds;
    StartIsBefore(b, prog, np, h, depth);
    n := Simulate(w, prog, Start(np, h), depth, b, Outside, fuel);
    StoppedByFailure(w, prog, Start(np, h), n);
    var r := Acts(w, b, false, State(h, np.fail), fuel);
    if r.Result? {
      RunZero(w, prog, Start(np, h));
      EndIsFinal(b, prog, np, h, depth, Run(w, prog, Start(np, h), n), r);
    }
  }

  lemma StartIsBefore(b: Block, prog: seq<Item>, np: Parser, h: History, depth: nat)
    requires AtRest(np, depth) && Readable(b, depth) && IsScript(prog, b)
    ensures var m := Start(np, h);
            Before(prog, m, depth, b) && Fits(ViewOf(m), Outside) && StateOf(ViewOf(m)) == State(h, np.fail)
    ensures Sound(b, Outside)
  {
    hide Flatten, Sound, WellWorded, IfDepth, LoopDepth;
    RestView(Start(np, h), depth);
  }

  lemma EndIsFinal(b: Block, prog: seq<Item>, np: Parser, h: History, depth: nat, m: Machine, r: Result)
    requires AtRest(np, depth) && Readable(b, depth) && IsScript(prog, b) && r.Result? && Shape(m.np)
    requires Ends(m, depth, ViewOf(Start(np, h)), |Flatten(b)|, r) && BreakFits(r, Outside)
    requires if b.Nil? then m == Start(np, h) else Reports(m, b, r)
    requires m.stopped ==> !m.ok
    ensures Halted(prog, m) && Final(prog, m, depth, r)
  {
    hide Sound, WellWorded, IfDepth, LoopDepth, EndsInCommand;
    RestView(Start(np, h), depth);
    if !b.Nil? {
      LastOfText(b);
    }
    if !m.stopped {
      RestIsRest(m, Start(np, h), depth);
    }
  }

  /** The live parts of the stacks tell that a parser is at rest. */
  lemma RestIsRest(m: Machine, start: Machine, depth: nat)
    requires AtRest(start.np, depth) && Running(m, depth)
    requires ViewOf(m).lp == ViewOf(start).lp && ViewOf(m).ie == ViewOf(start).ie
    ensures AtRest(m.np, depth)
  {
    RestView(start, depth);
  }

  /** A halted machine does not depend on how many steps it is given. */
  lemma HaltsOnce(w: World, prog: seq<Item>, m: Machine, a: nat, b: nat)
    requires Shape(m.np) && a <= b && Halted(prog, Run(w, prog, m, a))
    ensures Run(w, prog, m, b) == Run(w, prog, m, a)
  {
    hide Step, Run;
    RunSplits(w, prog, m, a, b - a);
    HaltedStays(w, prog, Run(w, prog, m, a), b - a);
  }

  /** What NSH does with any program that it can read: if it comes to an end, and the machine has
      halted, then the machine has run these commands in this order and with these exit statuses,
      reports this exit status, has stopped early exactly if it says so, and otherwise is at the
      end of the script with both stacks as they were. */
  lemma ScriptActs(w: World, b: Block, prog: seq<Item>, np: Parser, h: History, depth: nat, fuel: nat, n: nat)
    requires AtRest(np, depth) && Readable(b, depth) && IsScript(prog, b) && KeepsLines(w, prog)
    requires Acts(w, b, false, State(h, np.fail), fuel).Result?
    requires Halted(prog, Run(w, prog, Start(np, h), n))
    ensures Final(prog, Run(w, prog, Start(np, h), n), depth, Acts(w, b, false, State(h, np.fail), fuel))
  {
    hide Step, Run, Acts;
    var k := ActsAreReached(w, b, prog, np, h, depth, fuel);
    if k <= n {
      HaltsOnce(w, prog, Start(np, h), k, n);
    } else {
      HaltsOnce(w, prog, Start(np, h), n, k);
    }
  }

  /** The machine halts exactly if what NSH does with the program comes to an end. */
  lemma HaltsIffActsEnd(w: World, b: Block, prog: seq<Item>, np: Parser, h: History, depth: nat)
    requires AtRest(np, depth) && Readable(b, depth) && IsScript(prog, b) && KeepsLines(w, prog)
    ensures (exists fuel: nat :: Acts(w, b, false, State(h, np.fail), fuel).Result?)
       <==> (exists n: nat :: Halted(prog, Run(w, prog, Start(np, h), n)))
  {
    hide Step, Run, Acts;
    if fuel: nat :| Acts(w, b, false, State(h, np.fail), fuel).Result? {
      var n := ActsAreReached(w, b, prog, np, h, depth, fuel);
    }
    if n: nat :| Halted(prog, Run(w, prog, Start(np, h), n)) {
      var k := ActsAreReached(w, b, prog, np, h, depth, n + 1);
      if Acts(w, b, false, State(h, np.fail), n + 1).Timeout? {
        HaltsOnce(w, prog, Start(np, h), n, k);
      }
    }
  }

  lemma {:induction false} MeaningIsReached(w: World, b: Block, prog: seq<Item>, np: Parser, h: History,
                                            depth: nat, fuel: nat)
    returns (n: nat)
    requires AtRest(np, depth) && Runnable(b, depth) && IsScript(prog, b) && KeepsLines(w, prog)
    ensures var r := Exec(w, b, false, State(h, np.fail), fuel);
            var m := Run(w, prog, Start(np, h), n);
            && (r.Timeout? ==> n >= fuel && !Halted(prog, m))
            && (r.Result? ==> Halted(prog, m) && Final(prog, m, depth, r))
  {
    hide Step, Run, Acts, Exec, Readable, Runnable;
    RunnableActsAsMeant(w, b, depth, State(h, np.fail), fuel);
    n := ActsAreReached(w, b, prog, np, h, depth, fuel);
  }

  /** Where no loop stands directly inside a loop, the script does what the program means: if the
      meaning of the program terminates and the machine has halted, then the machine has halted as
      the meaning says. */
  lemma ScriptMeansProgram(w: World, b: Block, prog: seq<Item>, np: Parser, h: History, depth: nat, fuel: nat, n: nat)
    requires AtRest(np, depth) && Runnable(b, depth) && IsScript(prog, b) && KeepsLines(w, prog)
    requires Exec(w, b, false, State(h, np.fail), fuel).Result?
    requires Halted(prog, Run(w, prog, Start(np, h), n))
    ensures Final(prog, Run(w, prog, Start(np, h), n), depth, Exec(w, b, false, State(h, np.fail), fuel))
  {
    hide Step, Run, Acts, Exec, Readable, Runnable;
    RunnableActsAsMeant(w, b, depth, State(h, np.fail), fuel);
    ScriptActs(w, b, prog, np, h, depth, fuel, n);
  }

  /** The machine halts exactly if the meaning of the program terminates. */
  lemma HaltsIffMeaningTerminates(w: World, b: Block, prog: seq<Item>, np: Parser, h: History, depth: nat)
    requires AtRest(np, depth) && Runnable(b, depth) && IsScript(prog, b) && KeepsLines(w, prog)
    ensures (exists fuel: nat :: Exec(w, b, false, State(h, np.fail), fuel).Result?)
       <==> (exists n: nat :: Halted(prog, Run(w, prog, Start(np, h), n)))
  {
    hide Step, Run, Exec;
    if fuel: nat :| Exec(w, b, false, State(h, np.fail), fuel).Result? {
      var n := MeaningIsReached(w, b, prog, np, h, depth, fuel);
    }
    if n: nat :| Halted(prog, Run(w, prog, Start(np, h), n)) {
      var k := MeaningIsReached(w, b, prog, np, h, depth, n + 1);
      if Exec(w, b, false, State(h, np.fail), n + 1).Timeout? {
        HaltsOnce(w, prog, Start(np, h), n, k);
      }
    }
  }

  lemma RestView(m: Machine, depth: nat)
    requires AtRest(m.np, depth)
    ensures ViewOf(m) == View(m.pc, Base(m.np.lp.levels[0]), Base(m.np.ie.levels[0]), m.history, m.np.fail)
  {
  }
}
