/** The state that the NSH parser keeps between commands, and what one command does to it.

    NSH has no syntax tree.  `if`, `then`, `else` and `fi` move a stack of if levels;
    `while`, `until`, `do` and `done` move a stack of loop levels; a command runs only if
    the two levels on top say so.  Everything here is a function on values: the class
    `NshParser.Parser` does the same work in place and is proved equal to it.
  */
module ParserState {

  /** A word of a command, as the strcmp() chains of the parser tell words apart. */
  datatype Token =
    | While | Until | Do | Done
    | If | Bang | Then | Else | Fi
    | Break
    | Word(text: string)

  datatype LoopState = LoopNormal | LoopWhile | LoopUntil | LoopDo

  datatype ItefState = ItefNormal | ItefIf | ItefThen | ItefElse

  datatype LoopLevel = LoopLevel(state: LoopState, enable: bool, iendx: nat, topoffs: int)

  datatype ItefLevel = ItefLevel(state: ItefState, disabled: bool, ifcond: bool, inverted: bool)

  /** An array of levels and the index of its top.  Entries above the top are stale, but stay
      readable: `break` can move an index up again. */
  datatype Stack<T> = Stack(ndx: nat, levels: seq<T>)

  predicate InRange<T>(s: Stack<T>) {
    s.ndx < |s.levels|
  }

  function Top<T>(s: Stack<T>): T
    requires InRange(s)
  {
    s.levels[s.ndx]
  }

  function SetTop<T>(s: Stack<T>, level: T): Stack<T>
    requires InRange(s)
  {
    s.(levels := s.levels[s.ndx := level])
  }

  predicate Full<T>(s: Stack<T>) {
    s.ndx >= |s.levels| - 1
  }

  function Push<T>(s: Stack<T>, level: T): Stack<T>
    requires !Full(s)
  {
    Stack(s.ndx + 1, s.levels[s.ndx + 1 := level])
  }

  function Reset<T>(s: Stack<T>, level: T): Stack<T>
    requires InRange(s)
  {
    Stack(0, s.levels[0 := level])
  }

  /** Where the script is being read: `pos` is the position of the stream `np_stream`. */
  datatype Cursor = Cursor(stream: bool, foffs: int, loffs: nat, jump: bool, pos: int)

  /** struct nsh_parser_s. */
  datatype Parser = Parser(fail: bool, at: Cursor, lp: Stack<LoopLevel>, ie: Stack<ItefLevel>)

  /** Both stacks have the same depth, and every index points into its stack. */
  predicate Shape(np: Parser) {
    && |np.lp.levels| == |np.ie.levels|
    && InRange(np.lp)
    && InRange(np.ie)
    && forall level | level in np.lp.levels :: level.iendx < |np.ie.levels|
  }

  predicate AwaitsDo(state: LoopState) {
    state == LoopWhile || state == LoopUntil
  }

  /** Level 0 is NORMAL, every level strictly between it and the top is DO, and a top above
      level 0 is not NORMAL. */
  ghost predicate LoopInvariant(lp: Stack<LoopLevel>) {
    && InRange(lp)
    && lp.levels[0].state == LoopNormal
    && (forall k | 0 < k < lp.ndx :: lp.levels[k].state == LoopDo)
    && (0 < lp.ndx ==> Top(lp).state != LoopNormal)
  }

  ghost predicate ItefInvariant(ie: Stack<ItefLevel>) {
    InRange(ie) && ie.levels[0].state == ItefNormal
  }

  /** What holds of the parser between any two commands, whatever the commands were. */
  ghost predicate Invariant(np: Parser) {
    Shape(np) && LoopInvariant(np.lp) && ItefInvariant(np.ie)
  }

  // ----- Is command processing enabled? -----

  predicate LoopEnabled(np: Parser)
    requires Shape(np)
  {
    Top(np.lp).state == LoopDo ==> Top(np.lp).enable
  }

  predicate LevelEnabled(level: ItefLevel) {
    && !level.disabled
    && match level.state
       case ItefThen => !level.ifcond
       case ItefElse => level.ifcond
       case _ => true
  }

  predicate ItefEnabled(np: Parser)
    requires Shape(np)
  {
    LevelEnabled(Top(np.ie))
  }

  predicate CmdEnabled(np: Parser)
    requires Shape(np)
  {
    LoopEnabled(np) && ItefEnabled(np)
  }

  // ----- Keywords -----

  datatype Error = NoError | BadArgument | BadContext | TooDeep | Internal

  /** What is left of a command once a keyword stage has looked at its first words. */
  datatype Staged = Staged(np: Parser, words: seq<Token>, error: Error)

  function LoopReset(np: Parser): Parser
    requires Shape(np)
  {
    np.(at := np.at.(jump := false),
        lp := Reset(np.lp, LoopLevel(LoopNormal, true, np.lp.levels[0].iendx, 0)))
  }

  function ItefReset(np: Parser): Parser
    requires Shape(np)
  {
    np.(ie := Reset(np.ie, ItefLevel(ItefNormal, false, false, false)))
  }

  function LoopPush(np: Parser, state: LoopState): Parser
    requires Shape(np) && !Full(np.lp)
  {
    np.(at := np.at.(jump := false),
        lp := Push(np.lp, LoopLevel(state, CmdEnabled(np), np.ie.ndx, np.at.foffs + np.at.loffs)))
  }

  /** `done` leaves its loop level on both ways out; it also seeks the stream when the loop
      is to run again. */
  function LoopPop(np: Parser): Parser
    requires Shape(np) && 0 < np.lp.ndx
  {
    var top := Top(np.lp);
    var closed := SetTop(np.lp, top.(state := LoopNormal, enable := true));
    np.(at := if top.enable then np.at.(pos := top.topoffs, jump := true) else np.at,
        lp := closed.(ndx := np.lp.ndx - 1))
  }

  function SetLoopState(np: Parser, state: LoopState): Parser
    requires Shape(np)
  {
    np.(lp := SetTop(np.lp, Top(np.lp).(state := state)))
  }

  function SetItefState(np: Parser, state: ItefState): Parser
    requires Shape(np)
  {
    np.(ie := SetTop(np.ie, Top(np.ie).(state := state)))
  }

  /** The loop keywords; any other first word is left for the next stage. */
  function LoopStage(np: Parser, words: seq<Token>): (r: Staged)
    requires Shape(np)
    ensures Shape(r.np) && |r.np.lp.levels| == |np.lp.levels|
  {
    if words == [] then
      Staged(np, words, NoError)
    else
      var state := Top(np.lp).state;
      var rest := words[1..];
      match words[0]
      case While | Until =>
        if rest == [] || rest[0] == Word("") then
          Staged(LoopReset(np), rest, BadArgument)
        else if Top(np.ie).state == ItefIf || AwaitsDo(state) || !np.at.stream || np.at.foffs < 0 then
          Staged(LoopReset(np), rest, BadContext)
        else if Full(np.lp) then
          Staged(LoopReset(np), rest, TooDeep)
        else
          Staged(LoopPush(np, if words[0] == While then LoopWhile else LoopUntil), rest, NoError)
      case Do =>
        if !AwaitsDo(state) then
          Staged(LoopReset(np), rest, BadContext)
        else
          Staged(SetLoopState(np, LoopDo), rest, NoError)
      case Done =>
        if rest != [] then
          Staged(LoopReset(np), rest, BadArgument)
        else if state != LoopDo then
          Staged(LoopReset(np), rest, BadContext)
        else if np.lp.ndx < 1 then
          Staged(LoopReset(np), rest, Internal)
        else
          Staged(LoopPop(np), rest, NoError)
      case _ =>
        if AwaitsDo(state) then
          Staged(LoopReset(np), words, BadContext)
        else
          Staged(np, words, NoError)
  }

  function ItefPush(np: Parser, inverted: bool): Parser
    requires Shape(np) && !Full(np.ie)
  {
    np.(ie := Push(np.ie, ItefLevel(ItefIf, !CmdEnabled(np), false, inverted)))
  }

  function IfStage(np: Parser, cond: seq<Token>, inverted: bool): (r: Staged)
    requires Shape(np)
    ensures Shape(r.np) && |r.np.lp.levels| == |np.lp.levels|
  {
    if cond == [] || cond[0] == Word("") then
      Staged(ItefReset(np), cond, BadArgument)
    else if Top(np.ie).state == ItefIf then
      Staged(ItefReset(np), cond, BadContext)
    else if Full(np.ie) then
      Staged(ItefReset(np), cond, TooDeep)
    else
      Staged(ItefPush(np, inverted), cond, NoError)
  }

  /** The if keywords; any other first word is left for execution. */
  function ItefStage(np: Parser, words: seq<Token>): (r: Staged)
    requires Shape(np)
    ensures Shape(r.np) && |r.np.lp.levels| == |np.lp.levels|
  {
    if words == [] then
      Staged(np, words, NoError)
    else
      var state := Top(np.ie).state;
      var rest := words[1..];
      match words[0]
      case If =>
        if rest != [] && rest[0] == Bang then
          IfStage(np, rest[1..], true)
        else
          IfStage(np, rest, false)
      case Then =>
        if state != ItefIf then
          Staged(ItefReset(np), rest, BadContext)
        else
          Staged(SetItefState(np, ItefThen), rest, NoError)
      case Else =>
        if state != ItefThen then
          Staged(ItefReset(np), rest, BadContext)
        else
          Staged(SetItefState(np, ItefElse), rest, NoError)
      case Fi =>
        if rest != [] then
          Staged(ItefReset(np), rest, BadArgument)
        else if state != ItefThen && state != ItefElse then
          Staged(ItefReset(np), rest, BadContext)
        else if np.ie.ndx < 1 then
          Staged(ItefReset(np), rest, Internal)
        else
          Staged(np.(ie := np.ie.(ndx := np.ie.ndx - 1)), rest, NoError)
      case _ =>
        if state == ItefIf then
          Staged(ItefReset(np), words, BadContext)
        else
          Staged(np, words, NoError)
  }

  // ----- Running a command and saving its result -----

  /** `ok` is what the parser reports to its caller: false stops the line. */
  datatype Saved = Saved(np: Parser, ok: bool)

  function SaveResult(np: Parser, failed: bool): (r: Saved)
    requires Shape(np)
    ensures Shape(r.np) && |r.np.lp.levels| == |np.lp.levels|
  {
    var loop := Top(np.lp);
    var itef := Top(np.ie);
    if loop.state == LoopWhile then
      Saved(np.(fail := false, lp := SetTop(np.lp, loop.(enable := !failed))), true)
    else if loop.state == LoopUntil then
      Saved(np.(fail := false, lp := SetTop(np.lp, loop.(enable := failed))), true)
    else if itef.state == ItefIf then
      Saved(np.(fail := false, ie := SetTop(np.ie, itef.(ifcond := itef.inverted != failed))), true)
    else
      Saved(np.(fail := failed), !failed)
  }

  function BreakLoop(np: Parser): (r: Parser)
    requires Shape(np)
    ensures Shape(r) && |r.lp.levels| == |np.lp.levels|
  {
    var top := Top(np.lp);
    if top.state == LoopDo then
      np.(lp := SetTop(np.lp, top.(enable := false)), ie := np.ie.(ndx := top.iendx))
    else
      np
  }

  /** A command that was run: its words, and the exit status `$?` would have expanded to. */
  datatype Event = Event(words: seq<Token>, status: bool)

  type History = seq<Event>

  /** The world outside the parser.  Whether a command fails, and whether `set +e` is in
      force, may depend on everything that has been run so far. */
  datatype World = World(fails: History -> bool, ignores: History -> bool)

  datatype Ran = Ran(np: Parser, history: History, ok: bool, error: Error)

  /** The command table lets `break` have no arguments; with any, it never reaches cmd_break and
      is a command that fails like others do. */
  predicate IsBreak(words: seq<Token>) {
    words == [Break]
  }

  function Execute(w: World, np: Parser, history: History, words: seq<Token>): (r: Ran)
    requires Shape(np) && words != []
    ensures Shape(r.np) && |r.np.lp.levels| == |np.lp.levels|
  {
    if IsBreak(words) then
      var saved := SaveResult(BreakLoop(np), false);
      Ran(saved.np, history, saved.ok, NoError)
    else
      var history' := history + [Event(words, np.fail)];
      var saved := SaveResult(np, w.fails(history'));
      Ran(saved.np, history', saved.ok, NoError)
  }

  /** nsh_parse_command: loop keywords, then if keywords, then the command itself if
      command processing is enabled. */
  function ParseCommand(w: World, np: Parser, history: History, words: seq<Token>): (r: Ran)
    requires Shape(np)
    ensures Shape(r.np) && |r.np.lp.levels| == |np.lp.levels|
  {
    var loop := LoopStage(np, words);
    if loop.error != NoError then
      var saved := SaveResult(loop.np, true);
      Ran(saved.np, history, saved.ok, loop.error)
    else
      var itef := ItefStage(loop.np, loop.words);
      if itef.error != NoError then
        var saved := SaveResult(itef.np, true);
        Ran(saved.np, history, saved.ok, itef.error)
      else if itef.words == [] || !CmdEnabled(itef.np) then
        Ran(itef.np, history, true, NoError)
      else
        Execute(w, itef.np, history, itef.words)
  }
}
