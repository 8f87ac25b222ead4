/** Running a script file: reading it line by line, splitting each line into commands, and
    jumping back by seeking to a saved byte offset. */
module Script {
  import opened CStrings
  import opened ParserState
  import opened LineSplit

  /** The world, and how a command's text is read as words, which may depend on all that has
      been run so far and on the exit status. */
  datatype Shell = Shell(world: World, lex: (string, History, bool) -> seq<Token>)

  datatype Session = Session(np: Parser, history: History, ok: bool)

  /** np_loffs is 16 bits wide. */
  function Low16(x: nat): (r: nat)
    ensures x < 0x1_0000 ==> r == x
  {
    x % 0x1_0000
  }

  lemma Low16Wraps(x: nat)
    ensures Low16(x + 0x1_0000) == Low16(x) < 0x1_0000
  {
  }

  function SetLoffs(np: Parser, loffs: nat): Parser {
    np.(at := np.at.(loffs := Low16(loffs)))
  }

  function RunText(sh: Shell, np: Parser, history: History, text: string): (r: Session)
    requires Shape(np)
    ensures Shape(r.np) && |r.np.lp.levels| == |np.lp.levels|
  {
    var ran := ParseCommand(sh.world, np, history, sh.lex(text, history, np.fail));
    Session(ran.np, ran.history, ran.ok)
  }

  function RunPiece(sh: Shell, np: Parser, history: History, piece: Piece): (r: Session)
    requires Shape(np)
    ensures Shape(r.np) && |r.np.lp.levels| == |np.lp.levels|
  {
    RunText(sh, SetLoffs(np, piece.loffs), history, piece.text)
  }

  /** Run the pieces of a line in order, up to and including the first one that fails or that
      jumps back to the top of a loop. */
  function RunPieces(sh: Shell, np: Parser, history: History, line: Split): (r: Session)
    requires Shape(np) && (line.pieces == [] ==> line.unmatched)
    ensures Shape(r.np) && |r.np.lp.levels| == |np.lp.levels|
    decreases |line.pieces|
  {
    if line.pieces == [] then
      Session(SetLoffs(np, line.loffs), history, false)
    else
      var r := RunPiece(sh, np, history, line.pieces[0]);
      if !r.ok || r.np.at.jump || (|line.pieces| == 1 && !line.unmatched) then r
      else RunPieces(sh, r.np, r.history, line.(pieces := line.pieces[1..]))
  }

  /** The offset of the previous command does not matter to the next ones. */
  lemma LoffsIsOverwritten(sh: Shell, np: Parser, history: History, line: Split, loffs: nat)
    requires Shape(np) && (line.pieces == [] ==> line.unmatched)
    ensures RunPieces(sh, SetLoffs(np, loffs), history, line) == RunPieces(sh, np, history, line)
  {
    hide ParseCommand, Low16;
  }

  lemma {:induction false} ScanHasPiece(line: string, start: nat, working: nat)
    requires start <= working <= |line|
    ensures Scan(line, start, working).pieces == [] ==> Scan(line, start, working).unmatched
    decreases |line| - working
  {
    var q := NextSeparator(line, working);
    if q < |line| && line[q] == '"' && NextQuote(line, q + 1) < |line| {
      ScanHasPiece(line, start, NextQuote(line, q + 1) + 1);
    }
  }

  // ----- What the loop of nsh_parse may do at a separator -----

  lemma RunsLast(sh: Shell, np: Parser, history: History, line: string, start: nat, working: nat)
    requires Shape(np) && start <= working <= |line|
    requires var q := NextSeparator(line, working); q == |line| || EndsLine(line[q])
    ensures Scan(line, start, working).pieces != []
    ensures RunPieces(sh, np, history, Scan(line, start, working)) ==
            RunText(sh, SetLoffs(np, working), history, line[start..])
  {
    hide RunText, SetLoffs, NextSeparator;
  }

  lemma RunsOne(sh: Shell, np: Parser, history: History, line: string, start: nat, working: nat, q: nat)
    requires Shape(np) && start <= working <= q < |line|
    requires q == NextSeparator(line, working) && line[q] == ';'
    ensures var r := RunText(sh, SetLoffs(np, working), history, line[start..q]);
            var rest := Scan(line, q + 1, q + 1);
            && Scan(line, start, working).pieces != []
            && (rest.pieces == [] ==> rest.unmatched)
            && RunPieces(sh, np, history, Scan(line, start, working)) ==
               if !r.ok || r.np.at.jump then r else RunPieces(sh, r.np, r.history, rest)
  {
    hide RunText, SetLoffs, NextSeparator;
    ScanHasPiece(line, q + 1, q + 1);
    var rest := Scan(line, q + 1, q + 1);
    var s := Scan(line, start, working);
    assert s.pieces[1..] == rest.pieces;
    assert s.(pieces := s.pieces[1..]) == rest;
  }

  lemma RunsOn(sh: Shell, np: Parser, history: History, line: string, start: nat, working: nat, q: nat)
    requires Shape(np) && start <= working <= q < |line|
    requires q == NextSeparator(line, working) && line[q] == '"'
    ensures var t := NextQuote(line, q + 1);
            if t == |line| then
              && Scan(line, start, working) == Split([], true, working)
              && RunPieces(sh, np, history, Scan(line, start, working)) ==
                 Session(SetLoffs(np, working), history, false)
            else
              && Scan(line, start, working) == Scan(line, start, t + 1)
              && (Scan(line, start, t + 1).pieces == [] ==> Scan(line, start, t + 1).unmatched)
              && RunPieces(sh, np, history, Scan(line, start, working)) ==
                 RunPieces(sh, SetLoffs(np, working), history, Scan(line, start, t + 1))
  {
    hide RunText, SetLoffs, NextSeparator, NextQuote, RunPieces, Scan;
    var t := NextQuote(line, q + 1);
    if t < |line| {
      ScanOverQuotes(line, start, working, q, t);
      ScanHasPiece(line, start, t + 1);
      LoffsIsOverwritten(sh, np, history, Scan(line, start, t + 1), working);
    } else {
      ScanUnclosed(line, start, working, q);
      RunsNone(sh, np, history, working);
    }
  }

  lemma RunsNone(sh: Shell, np: Parser, history: History, loffs: nat)
    requires Shape(np)
    ensures RunPieces(sh, np, history, Split([], true, loffs)) == Session(SetLoffs(np, loffs), history, false)
  {
  }

  function NoJump(np: Parser): Parser {
    np.(at := np.at.(jump := false))
  }

  /** nsh_parse. */
  function ParseLine(sh: Shell, np: Parser, history: History, line: string): (r: Session)
    requires Shape(np)
    ensures Shape(r.np) && |r.np.lp.levels| == |np.lp.levels|
  {
    ScanHasPiece(line, 0, 0);
    RunPieces(sh, NoJump(np), history, Scan(line, 0, 0))
  }

  /** fgets(): up to and including the next newline, but at most limit - 1 characters. */
  function ReadLine(file: string, pos: nat, limit: nat): (line: string)
    requires pos < |file|
    ensures pos + |line| <= |file| && line == file[pos..pos + |line|]
    ensures |line| < limit || limit == 0
    decreases limit
  {
    if limit <= 1 then ""
    else if file[pos] == '\n' || pos + 1 == |file| then [file[pos]]
    else [file[pos]] + ReadLine(file, pos + 1, limit - 1)
  }

  /** The text read goes up to and including the first newline, unless the file ends or the buffer
      is full before. */
  lemma {:induction false} ReadLineEndsAtNewline(file: string, pos: nat, limit: nat)
    requires pos < |file| && limit > 1
    ensures var line := ReadLine(file, pos, limit);
            && line != "" && line <= file[pos..] && |line| < limit
            && (forall k | 0 <= k < |line| - 1 :: line[k] != '\n')
            && (line[|line| - 1] == '\n' || pos + |line| == |file| || |line| == limit - 1)
    decreases limit
  {
    hide ReadLine;
    ReadLineUnfolds(file, pos, limit);
    if file[pos] != '\n' && pos + 1 < |file| && limit > 2 {
      ReadLineEndsAtNewline(file, pos + 1, limit - 1);
      var rest := ReadLine(file, pos + 1, limit - 1);
      assert ReadLine(file, pos, limit) == [file[pos]] + rest;
    }
  }

  lemma ReadLineUnfolds(file: string, pos: nat, limit: nat)
    requires pos < |file|
    ensures limit <= 1 ==> ReadLine(file, pos, limit) == ""
    ensures limit > 1 ==>
              var last := file[pos] == '\n' || pos + 1 == |file| || limit == 2;
              ReadLine(file, pos, limit) ==
              [file[pos]] + if last then "" else ReadLine(file, pos + 1, limit - 1)
  {
  }

  /** `ok` is the result of the last line parsed; `open` is false once the script is over. */
  datatype Reader = Reader(np: Parser, history: History, ok: bool, open: bool)

  /** One turn of the loop of nsh_script. */
  function Turn(sh: Shell, file: string, limit: nat, s: Reader): (s': Reader)
    requires Shape(s.np)
    ensures Shape(s'.np) && |s'.np.lp.levels| == |s.np.lp.levels|
  {
    if !s.open then
      s
    else
      var pos := s.np.at.pos;
      var np := s.np.(at := s.np.at.(foffs := pos, loffs := 0));
      if !(0 <= pos < |file|) then
        Reader(np, s.history, s.ok, false)
      else
        var line := ReadLine(file, pos, limit);
        var r := ParseLine(sh, np.(at := np.at.(pos := pos + |line|)), s.history, CString(line));
        Reader(r.np, r.history, r.ok, r.ok || sh.world.ignores(r.history))
  }

  function Turns(sh: Shell, file: string, limit: nat, s: Reader, n: nat): (s': Reader)
    requires Shape(s.np)
    ensures Shape(s'.np) && |s'.np.lp.levels| == |s.np.lp.levels|
    decreases n
  {
    if n == 0 then s else Turns(sh, file, limit, Turn(sh, file, limit, s), n - 1)
  }
}
