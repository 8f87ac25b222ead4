/** Commands without words: blank lines, comments, and nothing between two semicolons.  A script
    with such commands runs as the script without them. */
module BlankCommands {
  import opened ParserState
  import opened FlatMachine
  import opened LoopOffsets

  /** No command with words follows command i on its line. */
  predicate LastOnLine(prog: seq<Item>, i: nat)
    requires i < |prog|
    decreases |prog| - i
  {
    prog[i].last || i + 1 == |prog| || (prog[i + 1].words == [] && LastOnLine(prog, i + 1))
  }

  /** The commands with words among the first i, each with its new place on its line. */
  function Kept(prog: seq<Item>, i: nat): (items: seq<Item>)
    requires i <= |prog|
    ensures |items| <= i
  {
    if i == 0 then []
    else if prog[i - 1].words == [] then Kept(prog, i - 1)
    else Kept(prog, i - 1) + [Item(prog[i - 1].words, LastOnLine(prog, i - 1))]
  }

  function Compact(prog: seq<Item>): seq<Item> {
    Kept(prog, |prog|)
  }

  /** How many commands with words come before command i. */
  function Count(prog: seq<Item>, i: nat): nat
    requires i <= |prog|
  {
    |Kept(prog, i)|
  }

  function Counts(prog: seq<Item>): (off: Renaming)
    ensures |off| == |prog| + 1 && off[0] == 0
    ensures forall i | 0 <= i <= |prog| :: off[i] == Count(prog, i)
  {
    seq(|prog| + 1, i requires 0 <= i <= |prog| => Count(prog, i))
  }

  lemma {:induction false} KeptGrows(prog: seq<Item>, i: nat, j: nat)
    requires i <= j <= |prog|
    ensures Kept(prog, i) <= Kept(prog, j)
    decreases j
  {
    if i < j {
      KeptGrows(prog, i, j - 1);
    }
  }

  /** Command i, if it has words, is command Count(i) of the compact script. */
  lemma KeptAt(prog: seq<Item>, i: nat)
    requires i < |prog|
    ensures Count(prog, i) <= Count(prog, i + 1) <= |Compact(prog)|
    ensures prog[i].words == [] ==> Count(prog, i + 1) == Count(prog, i)
    ensures prog[i].words != [] ==>
              && Count(prog, i + 1) == Count(prog, i) + 1
              && Compact(prog)[Count(prog, i)] == Item(prog[i].words, LastOnLine(prog, i))
  {
    KeptGrows(prog, i + 1, |prog|);
  }

  /** Where no words follow on the line, none are counted up to the next line. */
  lemma {:induction false} CountToNextLine(prog: seq<Item>, i: nat)
    requires i < |prog| && LastOnLine(prog, i)
    ensures Count(prog, NextLine(prog, i)) == Count(prog, i + 1)
    decreases |prog| - i
  {
    if !(prog[i].last || i + 1 == |prog|) {
      CountToNextLine(prog, i + 1);
      KeptAt(prog, i + 1);
    }
  }

  /** Some words follow on the line: command j is the next one that has any. */
  lemma {:induction false} NextOnLine(prog: seq<Item>, i: nat) returns (j: nat)
    requires i < |prog| && !LastOnLine(prog, i)
    ensures i < j < |prog| && prog[j].words != [] && NextLine(prog, i) == NextLine(prog, j)
    ensures Count(prog, j) == Count(prog, i + 1)
    decreases |prog| - i
  {
    if prog[i + 1].words != [] {
      j := i + 1;
    } else {
      j := NextOnLine(prog, i + 1);
      KeptAt(prog, i + 1);
    }
  }

  /** The next line of the compact script is the next line of the script. */
  lemma {:induction false} CompactNextLine(prog: seq<Item>, i: nat)
    requires i < |prog| && prog[i].words != []
    ensures Count(prog, i) < |Compact(prog)|
    ensures NextLine(Compact(prog), Count(prog, i)) == Count(prog, NextLine(prog, i))
    decreases |prog| - i
  {
    hide Kept;
    KeptAt(prog, i);
    if LastOnLine(prog, i) {
      CountToNextLine(prog, i);
    } else {
      var j := NextOnLine(prog, i);
      KeptAt(prog, j);
      CompactNextLine(prog, j);
    }
  }

  // ----- Running both -----

  /** There is a command before command i on its line, or it is the first of the next line, and none
      of that line up to i has words. */
  predicate BlankSince(prog: seq<Item>, i: nat)
    requires i <= |prog|
  {
    i > 0 && prog[i - 1].words == [] && (i == 1 || prog[i - 2].last || BlankSince(prog, i - 1))
  }

  lemma {:induction false} WordsBeforeNextLine(prog: seq<Item>, i: nat)
    requires i < |prog| && !BlankSince(prog, i + 1)
    ensures !BlankSince(prog, NextLine(prog, i))
    decreases |prog| - i
  {
    if !(prog[i].last || i + 1 == |prog|) {
      WordsBeforeNextLine(prog, i + 1);
    }
  }

  lemma {:induction false} NextLineStarts(prog: seq<Item>, i: nat)
    requires i < |prog|
    ensures NextLine(prog, i) == |prog| || prog[NextLine(prog, i) - 1].last
    decreases |prog| - i
  {
    if !(prog[i].last || i + 1 == |prog|) {
      NextLineStarts(prog, i + 1);
    }
  }

  /** The last commands of both had the same result, unless m has since read a line without words;
      and m is in the middle of a line only after success. */
  predicate SameResult(prog: seq<Item>, m: Machine, c: Machine)
    requires 0 <= m.pc <= |prog|
  {
    && (0 < m.pc < |prog| && !prog[m.pc - 1].last && !m.stopped ==> m.ok)
    && if BlankSince(prog, m.pc) then m.ok else m.ok == c.ok
  }

  /** Machine m runs the script, machine c the compact one. */
  ghost predicate Together(prog: seq<Item>, m: Machine, c: Machine) {
    && Shape(m.np) && Shape(c.np) && Renamed(Counts(prog), m.np, c.np)
    && m.history == c.history && m.stopped == c.stopped
    && 0 <= m.pc <= |prog| && c.pc == Count(prog, m.pc)
    && HeadsKnown(prog, m.np.lp)
    && SameResult(prog, m, c)
  }

  lemma BlankDoesNothing(w: World, np: Parser, h: History)
    requires Shape(np)
    ensures ParseCommand(w, np, h, []) == Ran(np, h, true, NoError)
  {
  }

  lemma BlankStep(w: World, prog: seq<Item>, m: Machine, c: Machine)
    requires Together(prog, m, c) && !m.stopped && m.pc < |prog| && prog[m.pc].words == []
    ensures Together(prog, Step(w, prog, m), c) && Step(w, prog, m).pc == m.pc + 1
  {
    hide ParseCommand, Renamed, Kept, Shape, HeadsKnown;
    RenamedCursor(Counts(prog), m.np, c.np, Entering(m).at, c.np.at);
    BlankDoesNothing(w, Entering(m), m.history);
    KeptAt(prog, m.pc);
  }

  lemma CommandStepsBoth(w: World, prog: seq<Item>, m: Machine, c: Machine)
    requires Together(prog, m, c) && !m.stopped && m.pc < |prog| && prog[m.pc].words != []
    ensures Together(prog, Step(w, prog, m), Step(w, Compact(prog), c))
  {
    hide ParseCommand, Renamed, Kept, Shape, HeadsKnown, NextLine, SamePlace;
    var off := Counts(prog);
    var words := prog[m.pc].words;
    KeptAt(prog, m.pc);
    CompactNextLine(prog, m.pc);
    RenamedCursor(off, m.np, c.np, Entering(m).at, Entering(c).at);
    assert SamePlace(off, Entering(m).at, Entering(c).at, words) by {
      SameCommand(prog, Entering(m).at, Entering(c).at, words, m.pc);
    }
    CommandRenames(w, off, Entering(m), Entering(c), m.history, words);
    CommandKeepsHeads(w, prog, Entering(m), m.history, words);
    FailureDoesNotJump(w, Entering(m), m.history, words);
    WordsBeforeNextLine(prog, m.pc);
    NextLineStarts(prog, m.pc);
  }

  lemma SameCommand(prog: seq<Item>, a: Cursor, b: Cursor, words: seq<Token>, pc: nat)
    requires pc < |prog| && a == Cursor(true, pc, 0, false, pc + 1)
    requires b == Cursor(true, Count(prog, pc), 0, false, Count(prog, pc) + 1)
    ensures SamePlace(Counts(prog), a, b, words)
  {
  }

  lemma TogetherHalted(prog: seq<Item>, m: Machine, c: Machine)
    requires Together(prog, m, c)
    ensures Halted(prog, m) ==> Halted(Compact(prog), c)
  {
  }

  /** Any number of steps of the script is some number of steps of the compact one. */
  lemma {:induction false} RunsTogether(w: World, prog: seq<Item>, m: Machine, c: Machine, n: nat) returns (k: nat)
    requires Together(prog, m, c)
    ensures Together(prog, Run(w, prog, m, n), Run(w, Compact(prog), c, k))
    decreases n
  {
    hide Step, Together, Run;
    TogetherShape(prog, m, c);
    if n == 0 || Halted(prog, m) {
      k := 0;
      RunZero(w, prog, m);
      RunZero(w, Compact(prog), c);
      if n > 0 {
        HaltedStays(w, prog, m, n);
      }
    } else {
      RunOne(w, prog, m);
      RunSplits(w, prog, m, 1, n - 1);
      if prog[m.pc].words == [] {
        BlankStep(w, prog, m, c);
        k := RunsTogether(w, prog, Step(w, prog, m), c, n - 1);
      } else {
        CommandStepsBoth(w, prog, m, c);
        k := RunsTogether(w, prog, Step(w, prog, m), Step(w, Compact(prog), c), n - 1);
        RunOne(w, Compact(prog), c);
        RunSplits(w, Compact(prog), c, 1, k);
        k := 1 + k;
      }
    }
  }

  lemma TogetherShape(prog: seq<Item>, m: Machine, c: Machine)
    requires Together(prog, m, c)
    ensures Shape(m.np) && Shape(c.np) && m.stopped == c.stopped
    ensures 0 <= m.pc <= |prog| && c.pc == Count(prog, m.pc) <= |Compact(prog)|
  {
    KeptGrows(prog, m.pc, |prog|);
  }

  /** The script takes finitely many steps before its next command with words, or its end. */
  lemma {:induction false} PassBlanks(w: World, prog: seq<Item>, m: Machine, c: Machine) returns (n: nat)
    requires Together(prog, m, c)
    ensures var m' := Run(w, prog, m, n);
            Together(prog, m', c) && (Halted(prog, m') || prog[m'.pc].words != [])
    decreases |prog| - m.pc
  {
    hide Step, Run;
    RunZero(w, prog, m);
    n := 0;
    if !Halted(prog, m) && prog[m.pc].words == [] {
      BlankStep(w, prog, m, c);
      n := PassBlanks(w, prog, Step(w, prog, m), c);
      RunOne(w, prog, m);
      RunSplits(w, prog, m, 1, n);
      n := 1 + n;
    }
  }

  /** If the compact script halts, so does the script. */
  lemma {:induction false} HaltTogether(w: World, prog: seq<Item>, m: Machine, c: Machine, k: nat) returns (n: nat)
    requires Together(prog, m, c) && Halted(Compact(prog), Run(w, Compact(prog), c, k))
    ensures Halted(prog, Run(w, prog, m, n))
    decreases k
  {
    hide Step, Run, Together;
    TogetherShape(prog, m, c);
    n := PassBlanks(w, prog, m, c);
    var m' := Run(w, prog, m, n);
    if !Halted(prog, m') {
      TogetherShape(prog, m', c);
      KeptAt(prog, m'.pc);
      if k == 0 {
        RunZero(w, Compact(prog), c);
      } else {
        CommandStepsBoth(w, prog, m', c);
        RunOne(w, Compact(prog), c);
        RunSplits(w, Compact(prog), c, 1, k - 1);
        var a := HaltTogether(w, prog, Step(w, prog, m'), Step(w, Compact(prog), c), k - 1);
        RunThenStep(w, prog, m, n);
        RunSplits(w, prog, m, n + 1, a);
        n := n + 1 + a;
      }
    }
  }
}
