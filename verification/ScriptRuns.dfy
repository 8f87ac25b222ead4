/** Running a well laid out script file is running its list of commands, and so, for the text
    of a structured program, computing the meaning of the program. */
module ScriptRuns {
  import opened ParserState
  import opened LineSplit
  import opened Script
  import opened FlatMachine
  import opened LoopOffsets
  import opened BlankCommands
  import opened ScriptLayout
  import opened Structured
  import opened StructuredTheorems

  /** Parser np, reading the file, and machine m, running the list of commands, are in step. */
  ghost predicate InStep(src: seq<Source>, np: Parser, history: History, m: Machine) {
    && Shape(np) && Shape(m.np)
    && Renamed(Offsets(src), m.np, np)
    && history == m.history
    && 0 <= m.pc <= |src|
    && HeadsKnown(Items(src), m.np.lp)
  }

  // ----- One command -----

  lemma SubSlice(file: string, p: nat, q: nat, a: nat, b: nat)
    requires p <= a <= b <= q <= |file|
    ensures file[p..q][a - p..b - p] == file[a..b]
  {
    var sub := file[p..q][a - p..b - p];
    assert forall k | 0 <= k < b - a :: sub[k] == file[p..q][a - p + k] == file[a + k];
  }

  /** Command k on the line that holds commands i to j - 1. */
  lemma TextOnLine(src: seq<Source>, i: nat, k: nat, j: nat)
    requires i <= k < j <= |src|
    ensures var line := LineText(src, i, j);
            var at := Off(src, k) - Off(src, i);
            var next := Off(src, k + 1) - Off(src, i);
            && |line| == Off(src, j) - Off(src, i)
            && 0 <= at && next == at + |Written(src[k])| <= |line|
            && line[at..next] == Written(src[k])
            && (j == k + 1 ==> line[at..] == Written(src[k]))
  {
    hide Render, Written;
    OffMonotone(src, i, k);
    OffMonotone(src, k + 1, j);
    OffMonotone(src, j, |src|);
    FileLength(src);
    FileAt(src, k);
    SubSlice(Render(src), Off(src, i), Off(src, j), Off(src, k), Off(src, k + 1));
  }

  /** The text of command k ends at e: at its terminator, or at its comment. */
  lemma TextEnds(src: seq<Source>, i: nat, k: nat, j: nat)
    requires i <= k < j <= |src| && GoodComment(src[k])
    ensures var line := LineText(src, i, j);
            var at := Off(src, k) - Off(src, i);
            var e := at + |src[k].text|;
            && 0 <= at && e < |line| && line[at..e] == src[k].text
            && (if src[k].last then EndsLine(line[e]) else line[e] == ';' && Off(src, k + 1) - Off(src, i) == e + 1)
            && (j == k + 1 ==> line[at..] == src[k].text + (src[k].comment + [Terminator(src[k])]))
  {
    hide LineText, Off;
    TextOnLine(src, i, k, j);
    WrittenParts(LineText(src, i, j), Off(src, k) - Off(src, i), src[k]);
  }

  lemma WrittenParts(line: string, at: nat, s: Source)
    requires at + |Written(s)| <= |line| && line[at..at + |Written(s)|] == Written(s) && GoodComment(s)
    ensures Written(s) == s.text + (s.comment + [Terminator(s)])
    ensures var e := at + |s.text|;
            && e < |line| && line[at..e] == s.text
            && (if s.last then EndsLine(line[e]) else line[e] == ';' && |Written(s)| == |s.text| + 1)
  {
    var rest := s.comment + [Terminator(s)];
    assert Written(s) == s.text + rest;
    SliceParts(line, at, s.text, rest);
  }

  lemma SliceParts(line: string, at: nat, a: string, b: string)
    requires at + |a| + |b| <= |line| && line[at..at + |a| + |b|] == a + b && b != ""
    ensures line[at..at + |a|] == a && line[at + |a|] == b[0]
  {
    var all := line[at..at + |a| + |b|];
    assert line[at..at + |a|] == all[..|a|];
    assert line[at + |a|] == all[|a|];
  }

  /** What nsh_parse hands on for command k of the line that holds command i. */
  ghost predicate HandsOn(sh: Shell, src: seq<Source>, line: string, at: nat, next: nat, k: nat)
    requires k < |src| && at <= |line|
  {
    var s := Scan(line, at, at);
    && s.pieces != []
    && (forall h: History, f: bool :: sh.lex(s.pieces[0].text, h, f) == src[k].words)
    && (s.pieces[0].loffs == at <==> '"' !in src[k].text)
    && (if src[k].last then |s.pieces| == 1 && !s.unmatched
        else
          && next <= |line|
          && (|s.pieces| > 1 || s.unmatched)
          && s.(pieces := s.pieces[1..]) == Scan(line, next, next))
  }

  lemma PieceOfLine(sh: Shell, src: seq<Source>, limit: nat, i: nat, k: nat)
    requires WellLaid(sh, src, limit) && i <= k < |src| && NextLine(Items(src), i) == NextLine(Items(src), k)
    ensures var j := NextLine(Items(src), k);
            var line := LineText(src, i, j);
            var at := Off(src, k) - Off(src, i);
            && 0 <= at < |line| == Off(src, j) - Off(src, i)
            && (src[k].last || k + 1 < j)
            && HandsOn(sh, src, line, at, Off(src, k + 1) - Off(src, i), k)
            && (IsLoopHead(src[k].words) ==> '"' !in src[k].text)
  {
    hide LineText, Scan, Off, PieceOffset, HandsOn, GoodSource, GoodText;
    var j := NextLine(Items(src), k);
    assert GoodSource(sh, src[k]);
    GoodParts(sh, src[k]);
    TextOnLine(src, i, k, j);
    TextEnds(src, i, k, j);
    PieceHandsOn(sh, src, LineText(src, i, j), Off(src, k) - Off(src, i), Off(src, k + 1) - Off(src, i), k);
  }

  lemma GoodParts(sh: Shell, s: Source)
    requires GoodSource(sh, s)
    ensures GoodText(sh, s) && GoodComment(s) && (IsLoopHead(s.words) ==> '"' !in s.text)
  {
  }

  lemma PieceHandsOn(sh: Shell, src: seq<Source>, line: string, at: nat, next: nat, k: nat)
    requires k < |src| && GoodText(sh, src[k])
    requires var e := at + |src[k].text|;
             && e < |line| && line[at..e] == src[k].text
             && (if src[k].last then EndsLine(line[e]) && line[at..] == src[k].text + (src[k].comment + "\n")
                 else line[e] == ';' && next == e + 1)
    ensures HandsOn(sh, src, line, at, next, k)
  {
    hide Scan, PieceOffset, Clean;
    var e := at + |src[k].text|;
    CleanShift(src[k].text, line, at, 0, false);
    ScanPiece(line, at, at, e);
    OffsetIsStartIffNoQuote(line, at, e);
    if src[k].last {
      LexesTo(sh, src[k], line[at..]);
    } else {
      assert src[k].text + "" == line[at..e];
      LexesTo(sh, src[k], line[at..e]);
      ScanHasPiece(line, e + 1, e + 1);
      assert Scan(line, at, at).pieces[1..] == Scan(line, e + 1, e + 1).pieces;
    }
  }

  lemma LexesTo(sh: Shell, s: Source, text: string)
    requires GoodText(sh, s) && text == s.text + Tail(s)
    ensures forall h: History, f: bool :: sh.lex(text, h, f) == s.words
  {
  }

  /** One command, read from the file and taken from the list. */
  lemma CommandInStep(sh: Shell, src: seq<Source>, np: Parser, m: Machine, piece: Piece)
    requires InStep(src, np, m.history, m) && !m.stopped && m.pc < |src|
    requires np.at.stream && !np.at.jump && np.at.foffs >= 0
    requires sh.lex(piece.text, m.history, np.fail) == src[m.pc].words
    requires IsLoopHead(src[m.pc].words) ==>
               piece.loffs < 0x1_0000 && np.at.foffs + piece.loffs == Off(src, m.pc)
    ensures var r := RunPiece(sh, np, m.history, piece);
            var m' := Step(sh.world, Items(src), m);
            && InStep(src, r.np, r.history, m')
            && r.np.at.stream
            && (r.np.at.jump ==> r.ok && m'.pc < |src| && r.np.at.pos == Off(src, m'.pc)
                                 && IsLoopHead(src[m'.pc].words) && Jumps(sh.world, Items(src), m))
            && (!r.np.at.jump ==>
                  && r.np.at == np.at.(loffs := Low16(piece.loffs))
                  && m'.pc == if r.ok then m.pc + 1 else NextLine(Items(src), m.pc))
            && m'.stopped == (!r.ok && !sh.world.ignores(r.history)) && m'.ok == r.ok
  {
    hide ParseCommand, Renamed, HeadsKnown, Shape, Off, NextLine, Low16, IsLoopHead, Items, Offsets, Step, RunPiece;
    ItemsAre(src, m.pc);
    var b := SetLoffs(np, piece.loffs);
    RenamedCursor(Offsets(src), m.np, np, Entering(m).at, b.at);
    ParseInStep(sh.world, src, Entering(m), b, m.history, m.pc);
    StepUnfolds(sh.world, Items(src), m);
    PieceUnfolds(sh, np, m.history, piece, src[m.pc].words);
    ParsedShape(sh.world, Entering(m), m.history, src[m.pc].words);
  }

  lemma StepUnfolds(w: World, prog: seq<Item>, m: Machine)
    requires Shape(m.np) && !Halted(prog, m)
    ensures var r := ParseCommand(w, Entering(m), m.history, prog[m.pc].words);
            Step(w, prog, m) ==
            if r.ok then Machine(r.np, r.history, r.np.at.pos, false, true)
            else Machine(r.np, r.history, NextLine(prog, m.pc), !w.ignores(r.history), false)
  {
    hide ParseCommand;
  }

  lemma PieceUnfolds(sh: Shell, np: Parser, h: History, piece: Piece, words: seq<Token>)
    requires Shape(np) && sh.lex(piece.text, h, np.fail) == words
    ensures var r := ParseCommand(sh.world, SetLoffs(np, piece.loffs), h, words);
            RunPiece(sh, np, h, piece) == Session(r.np, r.history, r.ok)
  {
    hide ParseCommand, Low16;
  }

  lemma ItemsAre(src: seq<Source>, i: nat)
    requires i < |src|
    ensures |Items(src)| == |src| && Items(src)[i] == Item(src[i].words, src[i].last)
  {
  }

  lemma ParsedShape(w: World, np: Parser, h: History, words: seq<Token>)
    requires Shape(np)
    ensures Shape(ParseCommand(w, np, h, words).np)
  {
  }

  /** Command pc, parsed by two parsers that differ only in how they name positions. */
  lemma ParseInStep(w: World, src: seq<Source>, a: Parser, b: Parser, h: History, pc: nat)
    requires pc < |src| && Shape(a) && Shape(b) && Renamed(Offsets(src), a, b)
    requires HeadsKnown(Items(src), a.lp) && a.at == Cursor(true, pc, 0, false, pc + 1)
    requires b.at.stream && !b.at.jump && b.at.foffs >= 0
    requires IsLoopHead(src[pc].words) ==> b.at.foffs + b.at.loffs == Off(src, pc)
    ensures var ra := ParseCommand(w, a, h, src[pc].words);
            var rb := ParseCommand(w, b, h, src[pc].words);
            && Renamed(Offsets(src), ra.np, rb.np) && HeadsKnown(Items(src), ra.np.lp)
            && ra.history == rb.history && ra.ok == rb.ok && ra.np.at.jump == rb.np.at.jump
            && (ra.np.at.jump ==>
                  && ra.ok && 0 <= ra.np.at.pos < |src| && IsLoopHead(src[ra.np.at.pos].words)
                  && rb.np.at == b.at.(jump := true, pos := Off(src, ra.np.at.pos)))
            && (!ra.np.at.jump ==> ra.np.at.pos == pc + 1 && rb.np.at == b.at)
  {
    hide ParseCommand, Renamed, HeadsKnown, Shape, Off, SamePlace, IsLoopHead;
    var words := src[pc].words;
    CursorsAgree(src, a.at, b.at, words, pc);
    CommandRenames(w, Offsets(src), a, b, h, words);
    CommandKeepsHeads(w, Items(src), a, h, words);
    FailureDoesNotJump(w, a, h, words);
  }

  lemma CursorsAgree(src: seq<Source>, a: Cursor, b: Cursor, words: seq<Token>, pc: nat)
    requires pc < |src| && a == Cursor(true, pc, 0, false, pc + 1)
    requires b.stream && !b.jump && b.foffs >= 0
    requires IsLoopHead(words) ==> b.foffs + b.loffs == Off(src, pc)
    ensures SamePlace(Offsets(src), a, b, words)
  {
  }

  // ----- One line -----

  /** The parser has left a line, or given up on it, where the machine now is. */
  ghost predicate LineDone(sh: Shell, src: seq<Source>, r: Session, m: Machine) {
    && InStep(src, r.np, r.history, m)
    && r.np.at.stream && r.np.at.pos == Off(src, m.pc)
    && m.stopped == (!r.ok && !sh.world.ignores(r.history)) && m.ok == r.ok
    && (r.np.at.jump ==> r.ok && m.pc < |src| && IsLoopHead(src[m.pc].words))
  }

  /** The parser is on the line that begins with command i and about to run command m.pc. */
  ghost predicate OnLine(src: seq<Source>, i: nat, np: Parser, m: Machine) {
    && InStep(src, np, m.history, m) && !m.stopped
    && i <= m.pc < |src| && NextLine(Items(src), i) == NextLine(Items(src), m.pc)
    && np.at.stream && !np.at.jump
    && np.at.foffs == Off(src, i) && np.at.pos == Off(src, NextLine(Items(src), i))
  }

  lemma {:induction false} LineInStep(sh: Shell, src: seq<Source>, limit: nat, i: nat, np: Parser, m: Machine)
    returns (n: nat)
    requires WellLaid(sh, src, limit) && OnLine(src, i, np, m)
    ensures var line := LineText(src, i, NextLine(Items(src), i));
            var at := Off(src, m.pc) - Off(src, i);
            && 0 <= at <= |line|
            && var s := Scan(line, at, at);
               && s.pieces != []
               && LineDone(sh, src, RunPieces(sh, np, m.history, s), Run(sh.world, Items(src), m, n))
               && n > 0
               && (RunPieces(sh, np, m.history, s).np.at.jump ==>
                     Jumps(sh.world, Items(src), Run(sh.world, Items(src), m, n - 1)))
    decreases |src| - m.pc
  {
    hide WellLaid, InStep, LineText, Scan, Step, Run, Off, RunPiece, Jumps;
    var j := NextLine(Items(src), i);
    var line := LineText(src, i, j);
    var at := Off(src, m.pc) - Off(src, i);
    var next := Off(src, m.pc + 1) - Off(src, i);
    PieceOfLine(sh, src, limit, i, m.pc);
    var s := Scan(line, at, at);
    LineFits(sh, src, limit, i);
    InStepShape(src, np, m.history, m);
    CommandInStep(sh, src, np, m, s.pieces[0]);
    var r := RunPiece(sh, np, m.history, s.pieces[0]);
    var m1 := Step(sh.world, Items(src), m);
    RunZero(sh.world, Items(src), m);
    RunOne(sh.world, Items(src), m);
    InStepShape(src, r.np, r.history, m1);
    n := 1;
    if r.ok && !r.np.at.jump && !src[m.pc].last {
      var a := LineInStep(sh, src, limit, i, r.np, m1);
      RunSplits(sh.world, Items(src), m, 1, a);
      RunSplits(sh.world, Items(src), m, 1, a - 1);
      n := 1 + a;
      assert RunPieces(sh, np, m.history, s) == RunPieces(sh, r.np, r.history, Scan(line, next, next));
    } else {
      assert RunPieces(sh, np, m.history, s) == r;
      assert src[m.pc].last ==> NextLine(Items(src), m.pc) == m.pc + 1;
    }
  }

  lemma InStepShape(src: seq<Source>, np: Parser, h: History, m: Machine)
    requires InStep(src, np, h, m)
    ensures Shape(np) && Shape(m.np) && h == m.history && np.fail == m.np.fail && 0 <= m.pc <= |src|
  {
  }

  // ----- The whole script -----

  /** Between lines. */
  ghost predicate ReaderInStep(src: seq<Source>, s: Reader, m: Machine) {
    && InStep(src, s.np, s.history, m)
    && s.np.at.stream && s.np.at.pos == Off(src, m.pc)
    && s.open == !m.stopped && s.ok == m.ok
  }

  /** One turn of the loop of nsh_script is one or more commands of the list. */
  lemma TurnInStep(sh: Shell, src: seq<Source>, limit: nat, s: Reader, m: Machine) returns (n: nat)
    requires WellLaid(sh, src, limit) && ReaderInStep(src, s, m) && !m.stopped && m.pc < |src|
    ensures ReaderInStep(src, Turn(sh, Render(src), limit, s), Run(sh.world, Items(src), m, n))
    ensures n > 0
    ensures Turn(sh, Render(src), limit, s).np.at.jump ==>
              var m' := Run(sh.world, Items(src), m, n);
              && m'.pc < |src| && IsLoopHead(src[m'.pc].words)
              && Jumps(sh.world, Items(src), Run(sh.world, Items(src), m, n - 1))
  {
    hide Jumps, WellLaid, LineText, Scan, Step, Run, Off, RunPieces, Render, Renamed, HeadsKnown, Shape;
    var i := m.pc;
    var j := NextLine(Items(src), i);
    LineIsRead(sh, src, limit, i);
    OffsetInFile(src, j);
    var line := LineText(src, i, j);
    var np := NoJump(s.np.(at := s.np.at.(foffs := Off(src, i), loffs := 0, pos := Off(src, j))));
    RenamedCursor(Offsets(src), m.np, s.np, m.np.at, np.at);
    n := LineInStep(sh, src, limit, i, np, m);
  }

  lemma OffsetInFile(src: seq<Source>, i: nat)
    requires i <= |src|
    ensures Off(src, i) <= |Render(src)|
    ensures Off(src, i) == |Render(src)| <==> i == |src|
  {
    OffMonotone(src, i, |src|);
    FileLength(src);
  }

  /** The script is over, and so is the list of commands. */
  ghost predicate ReaderDone(src: seq<Source>, s: Reader, m: Machine) {
    && InStep(src, s.np, s.history, m)
    && Halted(Items(src), m) && s.ok == m.ok
  }

  lemma {:induction false} ClosedStays(sh: Shell, file: string, limit: nat, s: Reader, t: nat)
    requires Shape(s.np) && !s.open
    ensures Turns(sh, file, limit, s, t) == s
  {
    if t > 0 {
      ClosedStays(sh, file, limit, s, t - 1);
    }
  }

  lemma {:induction false} TurnsInStep(sh: Shell, src: seq<Source>, limit: nat, s: Reader, m: Machine, t: nat)
    returns (n: nat)
    requires WellLaid(sh, src, limit) && ReaderInStep(src, s, m)
    ensures var s' := Turns(sh, Render(src), limit, s, t);
            var m' := Run(sh.world, Items(src), m, n);
            && (s'.open ==> ReaderInStep(src, s', m') && n >= t)
            && (!s'.open ==> ReaderDone(src, s', m'))
    decreases t
  {
    hide WellLaid, Off, Render, Turn, Run;
    InStepShape(src, s.np, s.history, m);
    var s1 := Turn(sh, Render(src), limit, s);
    if t == 0 {
      n := 0;
      RunZero(sh.world, Items(src), m);
    } else if m.stopped || m.pc == |src| {
      n := 0;
      RunZero(sh.world, Items(src), m);
      LastTurn(sh, src, limit, s, m);
      ClosedStays(sh, Render(src), limit, s1, t - 1);
    } else {
      var a := TurnInStep(sh, src, limit, s, m);
      var m1 := Run(sh.world, Items(src), m, a);
      var c := TurnsInStep(sh, src, limit, s1, m1, t - 1);
      RunSplits(sh.world, Items(src), m, a, c);
      n := a + c;
    }
  }

  lemma LastTurn(sh: Shell, src: seq<Source>, limit: nat, s: Reader, m: Machine)
    requires ReaderInStep(src, s, m) && (m.stopped || m.pc == |src|)
    ensures var s' := Turn(sh, Render(src), limit, s);
            !s'.open && ReaderDone(src, s', m)
  {
    hide Off, Render, Renamed, HeadsKnown, Shape;
    OffsetInFile(src, m.pc);
    RenamedCursor(Offsets(src), m.np, s.np, m.np.at, s.np.at.(foffs := s.np.at.pos, loffs := 0));
  }

  // ----- From a parser at rest -----

  /** Forget which offsets of earlier scripts the stale loop levels hold. */
  function Unname(np: Parser): (r: Parser)
    ensures Shape(np) ==> Shape(r)
  {
    var r := np.(lp := Stack(np.lp.ndx, seq(|np.lp.levels|, k requires 0 <= k < |np.lp.levels| =>
                                              np.lp.levels[k].(topoffs := -1 - np.lp.levels[k].topoffs))));
    assert Shape(np) ==> forall level | level in r.lp.levels :: level.iendx < |r.ie.levels| by {
      if Shape(np) {
        forall level | level in r.lp.levels
          ensures level.iendx < |r.ie.levels|
        {
          var k :| 0 <= k < |r.lp.levels| && r.lp.levels[k] == level;
          assert np.lp.levels[k] in np.lp.levels;
        }
      }
    }
    r
  }

  /** A parser about to read a script: at rest, at the start of the file. */
  predicate AtStart(np: Parser, depth: nat) {
    && AtRest(np, depth)
    && np.at.stream && np.at.pos == 0
    && forall level | level in np.lp.levels :: level.topoffs >= 0
  }

  function Opened(np: Parser, h: History): Reader {
    Reader(np, h, false, true)
  }

  lemma StartsInStep(src: seq<Source>, np: Parser, h: History, depth: nat)
    requires AtStart(np, depth)
    ensures AtRest(Unname(np), depth)
    ensures ReaderInStep(src, Opened(np, h), Start(Unname(np), h))
  {
    var m := Unname(np);
    forall k | 0 <= k < |np.lp.levels|
      ensures RenameLevel(Offsets(src), m.lp.levels[k]) == np.lp.levels[k]
    {
      assert np.lp.levels[k] in np.lp.levels;
    }
    assert RenameStack(Offsets(src), m.lp) == np.lp;
  }

  /** On any well laid out script, control flow well formed or not, after any number of turns,
      every live loop level remembers the byte offset of the very command that opened it: after n
      commands the file has been read as far as the list of commands has been run, and command
      number j of this run opened level k. */
  lemma LevelsRememberLoopHeads(sh: Shell, src: seq<Source>, limit: nat, np: Parser, h: History, depth: nat,
                                t: nat, k: nat)
    returns (n: nat, j: nat)
    requires WellLaid(sh, src, limit) && AtStart(np, depth)
    requires 0 < k <= Turns(sh, Render(src), limit, Opened(np, h), t).np.lp.ndx
    ensures var s := Turns(sh, Render(src), limit, Opened(np, h), t);
            var m := Start(Unname(np), h);
            && InStep(src, s.np, s.history, Run(sh.world, Items(src), m, n))
            && OpenedAt(sh.world, Items(src), m, n, k, j)
            && s.np.lp.levels[k].topoffs == Off(src, Run(sh.world, Items(src), m, j).pc)
  {
    hide WellLaid, Off, Render, Turns, Run, OpenedAt, HeadsKnown;
    StartsInStep(src, np, h, depth);
    var m := Start(Unname(np), h);
    n := TurnsInStep(sh, src, limit, Opened(np, h), m, t);
    var s := Turns(sh, Render(src), limit, Opened(np, h), t);
    var m' := Run(sh.world, Items(src), m, n);
    j := LevelHasOpener(sh.world, Items(src), m, n, k);
    OpenerInRange(sh.world, Items(src), m, n, k, j);
    assert s.np.lp.levels[k] == RenameLevel(Offsets(src), m'.np.lp.levels[k]);
  }

  lemma OpenerInRange(w: World, prog: seq<Item>, m: Machine, n: nat, k: nat, j: nat)
    requires Shape(m.np) && OpenedAt(w, prog, m, n, k, j)
    ensures 0 <= Run(w, prog, m, j).pc < |prog| && IsLoopHead(prog[Run(w, prog, m, j).pc].words)
  {
  }

  /** If a turn jumps, then the next text read begins with the very `while` or `until` that opened
      the level which the `done` has closed: command number n of the run is the `done`, command
      number j opened the level on top then, and it is command i of the script. */
  lemma JumpReadsLoopHead(sh: Shell, src: seq<Source>, limit: nat, np: Parser, h: History, depth: nat, t: nat)
    returns (n: nat, j: nat, i: nat)
    requires WellLaid(sh, src, limit) && AtStart(np, depth)
    requires Turns(sh, Render(src), limit, Opened(np, h), t).open
    requires Turns(sh, Render(src), limit, Opened(np, h), t + 1).open
    requires Turns(sh, Render(src), limit, Opened(np, h), t + 1).np.at.jump
    ensures var s := Turns(sh, Render(src), limit, Opened(np, h), t + 1);
            var m := Start(Unname(np), h);
            && InStep(src, s.np, s.history, Run(sh.world, Items(src), m, n + 1))
            && Jumps(sh.world, Items(src), Run(sh.world, Items(src), m, n))
            && OpenedAt(sh.world, Items(src), m, n, Run(sh.world, Items(src), m, n).np.lp.ndx, j)
            && Run(sh.world, Items(src), m, j).pc == i < |src| && IsLoopHead(src[i].words)
            && s.np.at.pos == Off(src, i) < |Render(src)|
            && src[i].text <= ReadLine(Render(src), Off(src, i), limit)
  {
    hide WellLaid, Off, Render, Turns, Turn, Run, OpenedAt, InStep, Jumps;
    StartsInStep(src, np, h, depth);
    var m := Start(Unname(np), h);
    var a, b := JumpingTurn(sh, src, limit, Opened(np, h), m, t);
    n := a + b - 1;
    RunSplits(sh.world, Items(src), m, a, b - 1);
    RunSplits(sh.world, Items(src), m, a, b);
    j := JumpReturnsToOpener(sh.world, Items(src), m, n);
    OpenerInRange(sh.world, Items(src), m, n, Run(sh.world, Items(src), m, n).np.lp.ndx, j);
    i := Run(sh.world, Items(src), m, j).pc;
    HeadIsRead(sh, src, limit, i);
  }

  /** The turn that jumps: a commands come before it, b commands are run by it. */
  lemma JumpingTurn(sh: Shell, src: seq<Source>, limit: nat, s: Reader, m: Machine, t: nat) returns (a: nat, b: nat)
    requires WellLaid(sh, src, limit) && ReaderInStep(src, s, m)
    requires Turns(sh, Render(src), limit, s, t).open
    requires Turns(sh, Render(src), limit, s, t + 1).open && Turns(sh, Render(src), limit, s, t + 1).np.at.jump
    ensures var m' := Run(sh.world, Items(src), m, a);
            && b > 0 && Jumps(sh.world, Items(src), Run(sh.world, Items(src), m', b - 1))
            && ReaderInStep(src, Turns(sh, Render(src), limit, s, t + 1), Run(sh.world, Items(src), m', b))
  {
    hide WellLaid, Off, Render, Turns, Turn, Run, InStep, Jumps;
    InStepShape(src, s.np, s.history, m);
    TurnsThenTurn(sh, Render(src), limit, s, t);
    a := TurnsInStep(sh, src, limit, s, m, t);
    var s' := Turns(sh, Render(src), limit, s, t);
    var m' := Run(sh.world, Items(src), m, a);
    InStepShape(src, s'.np, s'.history, m');
    if m'.pc == |src| {
      LastTurn(sh, src, limit, s', m');
      assert false;
    }
    b := TurnInStep(sh, src, limit, s', m');
  }

  lemma HeadIsRead(sh: Shell, src: seq<Source>, limit: nat, i: nat)
    requires WellLaid(sh, src, limit) && i < |src|
    ensures Off(src, i) < |Render(src)| && src[i].text <= ReadLine(Render(src), Off(src, i), limit)
  {
    hide WellLaid, Off, Render, ReadLine, LineText;
    LineIsRead(sh, src, limit, i);
    TextOnLine(src, i, i, NextLine(Items(src), i));
    assert src[i].text <= Written(src[i]);
  }

  /** A loop head that opens a level saves its own byte offset, whichever part of its line has been
      read, exactly if it has no double quote.  So the jump of the `done` that closes the level,
      which goes to what the level remembers, comes back to the head exactly then. */
  lemma HeadSavesItsOffsetIff(sh: Shell, src: seq<Source>, i: nat, k: nat, np: Parser, h: History)
    requires i <= k < |src| && NextLine(Items(src), i) == NextLine(Items(src), k)
    requires Off(src, NextLine(Items(src), i)) - Off(src, i) <= 0x1_0000
    requires GoodText(sh, src[k]) && IsLoopHead(src[k].words)
    requires Shape(np) && np.at.foffs == Off(src, i)
    ensures var line := LineText(src, i, NextLine(Items(src), i));
            var at := Off(src, k) - Off(src, i);
            && 0 <= at <= |line| && Scan(line, at, at).pieces != []
            && var r := RunPiece(sh, np, h, Scan(line, at, at).pieces[0]);
               r.np.lp.ndx > np.lp.ndx ==> (Top(r.np.lp).topoffs == Off(src, k) <==> '"' !in src[k].text)
  {
    hide LineText, Scan, Off, RunPiece, GoodText, Items;
    HeadPiece(sh, src, i, k);
    var at := Off(src, k) - Off(src, i);
    PieceSavesOffset(sh, np, h, Scan(LineText(src, i, NextLine(Items(src), i)), at, at).pieces[0], src[k].words);
  }

  /** What is handed on for command k of the line that holds command i. */
  lemma HeadPiece(sh: Shell, src: seq<Source>, i: nat, k: nat)
    requires i <= k < |src| && NextLine(Items(src), i) == NextLine(Items(src), k) && GoodText(sh, src[k])
    ensures var line := LineText(src, i, NextLine(Items(src), i));
            var at := Off(src, k) - Off(src, i);
            && |line| == Off(src, NextLine(Items(src), i)) - Off(src, i)
            && 0 <= at <= |line| && Scan(line, at, at).pieces != []
            && var piece := Scan(line, at, at).pieces[0];
               && (forall h: History, f: bool :: sh.lex(piece.text, h, f) == src[k].words)
               && (piece.loffs == at <==> '"' !in src[k].text) && piece.loffs < |line|
  {
    hide LineText, Scan, Off, GoodText, Written;
    var j := NextLine(Items(src), k);
    var line := LineText(src, i, j);
    var at := Off(src, k) - Off(src, i);
    TextParts(sh, src[k]);
    TextOnLine(src, i, k, j);
    TextEnds(src, i, k, j);
    PieceHandsOn(sh, src, line, at, Off(src, k + 1) - Off(src, i), k);
    SavedOnLine(sh, src[k], line, at);
  }

  lemma PieceSavesOffset(sh: Shell, np: Parser, h: History, piece: Piece, words: seq<Token>)
    requires Shape(np) && IsLoopHead(words) && sh.lex(piece.text, h, np.fail) == words && piece.loffs < 0x1_0000
    ensures var r := RunPiece(sh, np, h, piece);
            r.np.lp.ndx > np.lp.ndx ==> Top(r.np.lp).topoffs == np.at.foffs + piece.loffs
  {
    hide ParseCommand;
    if ParseCommand(sh.world, SetLoffs(np, piece.loffs), h, words).np.lp.ndx > np.lp.ndx {
      HeadRemembersItself(sh.world, SetLoffs(np, piece.loffs), h, words);
    }
  }

  lemma TextParts(sh: Shell, s: Source)
    requires GoodText(sh, s)
    ensures GoodComment(s) && Clean(s.text, 0, |s.text|, false)
  {
  }

  /** The offset saved for a command is on its line. */
  lemma SavedOnLine(sh: Shell, s: Source, line: string, at: nat)
    requires GoodText(sh, s)
    requires var e := at + |s.text|;
             e < |line| && line[at..e] == s.text && (line[e] == ';' || EndsLine(line[e]))
    ensures Scan(line, at, at).pieces != [] && Scan(line, at, at).pieces[0].loffs < |line|
  {
    hide Scan, PieceOffset, Clean;
    var e := at + |s.text|;
    TextParts(sh, s);
    CleanShift(s.text, line, at, 0, false);
    ScanPiece(line, at, at, e);
    PieceOffsetInside(line, at, e);
  }

  lemma {:induction false} PieceOffsetInside(line: string, working: nat, e: nat)
    requires working <= e < |line|
    ensures PieceOffset(line, working, e) <= e
    decreases e - working
  {
    var q := NextSeparator(line, working);
    if q < e {
      var t := NextQuote(line, q + 1);
      if t < e {
        PieceOffsetInside(line, t + 1, e);
      }
    }
  }

  // ----- The main theorem, on files -----

  /** The script holds the text of program b, with any blank lines, comments and empty commands in
      between. */
  ghost predicate HoldsProgram(sh: Shell, src: seq<Source>, limit: nat, b: Block, depth: nat) {
    && WellLaid(sh, src, limit) && IsScript(Compact(Items(src)), b) && Readable(b, depth)
    && KeepsLines(sh.world, Compact(Items(src)))
  }

  /** Parser and machine on the script without its commands without words. */
  function CompactStart(src: seq<Source>, np: Parser, h: History): (m: Machine)
    ensures m == Start(m.np, h)
  {
    Start(RenameParser(Counts(Items(src)), Unname(np)), h)
  }

  lemma CompactStarts(src: seq<Source>, np: Parser, h: History, depth: nat)
    requires AtStart(np, depth)
    ensures AtRest(CompactStart(src, np, h).np, depth) && CompactStart(src, np, h).np.fail == np.fail
    ensures Together(Items(src), Start(Unname(np), h), CompactStart(src, np, h))
  {
    hide Kept;
    var off := Counts(Items(src));
    assert RenameParser(off, Unname(np)).(at := RenameParser(off, Unname(np)).at) == RenameParser(off, Unname(np));
    assert Kept(Items(src), 0) == [] by {
      KeptNothing(Items(src));
    }
  }

  lemma KeptNothing(prog: seq<Item>)
    ensures Kept(prog, 0) == []
  {
  }

  lemma RestRenamed(off: Renaming, a: Parser, b: Parser, depth: nat)
    requires Shape(a) && Shape(b) && Renamed(off, a, b)
    ensures a.fail == b.fail && (AtRest(a, depth) <==> AtRest(b, depth))
  {
  }

  /** The result of a script that has been read to its end: failure if it has no line, success if its
      last line has no command, and else what its last command reports. */
  predicate ScriptSucceeds(src: seq<Source>, fail: bool) {
    BlankSince(Items(src), |src|) || Succeeds(Compact(Items(src)), fail)
  }

  /** What a script has run and left when it has been read to its end. */
  predicate Left(src: seq<Source>, s: Reader, depth: nat, r: Result) {
    && r.Result? && s.history == r.s.history && s.np.fail == r.s.fail
    && !r.out.Broke?
    && s.ok == (r.out == Normal && ScriptSucceeds(src, r.s.fail))
    && (r.out == Normal ==> AtRest(s.np, depth))
  }

  /** If NSH comes to an end with a program that it can read, and the script file that holds its
      text has been read to its end, then the script has run the commands that NSH makes of the
      program, in order and with the same exit statuses, and has left its exit status and its
      stacks. */
  lemma FileActs(sh: Shell, src: seq<Source>, limit: nat, b: Block, np: Parser, h: History, depth: nat,
                 fuel: nat, t: nat)
    requires HoldsProgram(sh, src, limit, b, depth) && AtStart(np, depth)
    requires Acts(sh.world, b, false, State(h, np.fail), fuel).Result?
    requires !Turns(sh, Render(src), limit, Opened(np, h), t).open
    ensures Left(src, Turns(sh, Render(src), limit, Opened(np, h), t), depth,
                 Acts(sh.world, b, false, State(h, np.fail), fuel))
  {
    hide WellLaid, Off, Render, Turns, Run, Acts, KeepsLines, Readable, CompactStart, Compact, IsScript, Renamed;
    StartsInStep(src, np, h, depth);
    CompactStarts(src, np, h, depth);
    var m, c := Start(Unname(np), h), CompactStart(src, np, h);
    var n := TurnsInStep(sh, src, limit, Opened(np, h), m, t);
    var k := RunsTogether(sh.world, Items(src), m, c, n);
    var s, m', c' := Turns(sh, Render(src), limit, Opened(np, h), t), Run(sh.world, Items(src), m, n),
                     Run(sh.world, Compact(Items(src)), c, k);
    TogetherHalted(Items(src), m', c');
    StoppedByFailure(sh.world, Items(src), m, n);
    ScriptActs(sh.world, b, Compact(Items(src)), c.np, h, depth, fuel, k);
    RestRenamed(Counts(Items(src)), m'.np, c'.np, depth);
    RestRenamed(Offsets(src), m'.np, s.np, depth);
  }

  /** Where no loop stands directly inside a loop, that is what the program means. */
  lemma FileMeansProgram(sh: Shell, src: seq<Source>, limit: nat, b: Block, np: Parser, h: History, depth: nat,
                         fuel: nat, t: nat)
    requires HoldsProgram(sh, src, limit, b, depth) && Placed(b, Outside) && AtStart(np, depth)
    requires Exec(sh.world, b, false, State(h, np.fail), fuel).Result?
    requires !Turns(sh, Render(src), limit, Opened(np, h), t).open
    ensures Left(src, Turns(sh, Render(src), limit, Opened(np, h), t), depth,
                 Exec(sh.world, b, false, State(h, np.fail), fuel))
  {
    hide WellLaid, Render, Turns, Acts, Exec, KeepsLines, Placed, Compact, IsScript, Left;
    RunnableActsAsMeant(sh.world, b, depth, State(h, np.fail), fuel);
    FileActs(sh, src, limit, b, np, h, depth, fuel, t);
  }

  /** The script comes to its end exactly if NSH comes to an end with the program. */
  lemma FileEndsIffActsEnd(sh: Shell, src: seq<Source>, limit: nat, b: Block, np: Parser, h: History, depth: nat)
    requires HoldsProgram(sh, src, limit, b, depth) && AtStart(np, depth)
    ensures (exists fuel: nat :: Acts(sh.world, b, false, State(h, np.fail), fuel).Result?)
       <==> (exists t: nat :: !Turns(sh, Render(src), limit, Opened(np, h), t).open)
  {
    hide WellLaid, Off, Render, Turns, Turn, Run, Acts, KeepsLines, Readable, InStep, Compact, IsScript, CompactStart;
    hide Together;
    StartsInStep(src, np, h, depth);
    CompactStarts(src, np, h, depth);
    var prog, m, c := Items(src), Start(Unname(np), h), CompactStart(src, np, h);
    HaltsIffActsEnd(sh.world, b, Compact(prog), c.np, h, depth);
    if t: nat :| !Turns(sh, Render(src), limit, Opened(np, h), t).open {
      var n := TurnsInStep(sh, src, limit, Opened(np, h), m, t);
      var k := RunsTogether(sh.world, prog, m, c, n);
      TogetherHalted(prog, Run(sh.world, prog, m, n), Run(sh.world, Compact(prog), c, k));
    }
    if k: nat :| Halted(Compact(prog), Run(sh.world, Compact(prog), c, k)) {
      var n := HaltTogether(sh.world, prog, m, c, k);
      HaltedFileEnds(sh, src, limit, np, h, depth, n);
    }
  }

  /** Where no loop stands directly inside a loop: exactly if the meaning of the program
      terminates. */
  lemma FileEndsIffMeaningTerminates(sh: Shell, src: seq<Source>, limit: nat, b: Block, np: Parser, h: History,
                                     depth: nat)
    requires HoldsProgram(sh, src, limit, b, depth) && Placed(b, Outside) && AtStart(np, depth)
    ensures (exists fuel: nat :: Exec(sh.world, b, false, State(h, np.fail), fuel).Result?)
       <==> (exists t: nat :: !Turns(sh, Render(src), limit, Opened(np, h), t).open)
  {
    hide WellLaid, Render, Turns, Acts, Exec, KeepsLines, Placed, Compact, IsScript;
    FileEndsIffActsEnd(sh, src, limit, b, np, h, depth);
    if fuel: nat :| Exec(sh.world, b, false, State(h, np.fail), fuel).Result? {
      RunnableActsAsMeant(sh.world, b, depth, State(h, np.fail), fuel);
      assert Acts(sh.world, b, false, State(h, np.fail), fuel).Result?;
    }
    if fuel: nat :| Acts(sh.world, b, false, State(h, np.fail), fuel).Result? {
      RunnableActsAsMeant(sh.world, b, depth, State(h, np.fail), fuel);
      assert Exec(sh.world, b, false, State(h, np.fail), fuel).Result?;
    }
  }

  lemma HaltedFileEnds(sh: Shell, src: seq<Source>, limit: nat, np: Parser, h: History, depth: nat, n: nat)
    requires WellLaid(sh, src, limit) && AtStart(np, depth)
    requires Halted(Items(src), Run(sh.world, Items(src), Start(Unname(np), h), n))
    ensures !Turns(sh, Render(src), limit, Opened(np, h), n + 1).open
  {
    hide WellLaid, Off, Render, Turns, Turn, Run, InStep;
    var m := Start(Unname(np), h);
    StartsInStep(src, np, h, depth);
    var s := Turns(sh, Render(src), limit, Opened(np, h), n);
    TurnsThenTurn(sh, Render(src), limit, Opened(np, h), n);
    var k := TurnsInStep(sh, src, limit, Opened(np, h), m, n);
    if s.open {
      HaltsOnce(sh.world, Items(src), m, n, k);
      var m' := Run(sh.world, Items(src), m, k);
      InStepShape(src, s.np, s.history, m');
      LastTurn(sh, src, limit, s, m');
    } else {
      ClosedStays(sh, Render(src), limit, s, 1);
      TurnsOne(sh, Render(src), limit, s);
    }
  }

  lemma TurnsOne(sh: Shell, file: string, limit: nat, s: Reader)
    requires Shape(s.np)
    ensures Turns(sh, file, limit, s, 1) == Turn(sh, file, limit, s)
  {
    assert Turns(sh, file, limit, Turn(sh, file, limit, s), 0) == Turn(sh, file, limit, s);
  }

  lemma {:induction false} TurnsThenTurn(sh: Shell, file: string, limit: nat, s: Reader, t: nat)
    requires Shape(s.np)
    ensures Turns(sh, file, limit, s, t + 1) == Turn(sh, file, limit, Turns(sh, file, limit, s, t))
    decreases t
  {
    hide Turn;
    if t == 0 {
      TurnsOne(sh, file, limit, s);
    } else {
      TurnsThenTurn(sh, file, limit, Turn(sh, file, limit, s), t - 1);
    }
  }
}
