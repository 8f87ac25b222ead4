/** The parser as the code has it: an object that updates its two arrays of levels, its indices
    and its flags in place.  Every method is proved to do what its counterpart in
    `ParserState` or `Script` says. */
module NshParser {
  import opened CStrings
  import opened ParserState
  import opened ParserSafety
  import opened LineSplit
  import opened Script

  class Parser {
    var fail: bool
    var stream: bool
    var foffs: int
    var loffs: nat
    var jump: bool
    var pos: int
    var lpndx: nat
    const lp: array<LoopLevel>
    var iendx: nat
    const ie: array<ItefLevel>
    var history: History

    ghost function View(): ParserState.Parser
      reads this, lp, ie
    {
      ParserState.Parser(fail, Cursor(stream, foffs, loffs, jump, pos), Stack(lpndx, lp[..]), Stack(iendx, ie[..]))
    }

    ghost predicate Valid()
      reads this, lp, ie
    {
      Invariant(View())
    }

    constructor (depth: nat)
      requires depth > 0
      ensures Valid() && fresh(lp) && fresh(ie)
      ensures View() == Initial(depth) && history == []
    {
      fail, stream, foffs, loffs, jump, pos := false, false, 0, 0, false, 0;
      lpndx, iendx, history := 0, 0, [];
      lp := new LoopLevel[depth](_ => LoopLevel(LoopNormal, false, 0, 0));
      ie := new ItefLevel[depth](_ => ItefLevel(ItefNormal, false, false, false));
    }

    // ----- Queries -----

    predicate LoopIsEnabled()
      requires Valid()
      reads this, lp, ie
      ensures LoopIsEnabled() == LoopEnabled(View())
    {
      if lp[lpndx].state == LoopDo then lp[lpndx].enable else true
    }

    predicate ItefIsEnabled()
      requires Valid()
      reads this, lp, ie
      ensures ItefIsEnabled() == ItefEnabled(View())
    {
      if ie[iendx].disabled then false
      else if ie[iendx].state == ItefThen then !ie[iendx].ifcond
      else if ie[iendx].state == ItefElse then ie[iendx].ifcond
      else true
    }

    predicate IsEnabled()
      requires Valid()
      reads this, lp, ie
      ensures IsEnabled() == CmdEnabled(View())
    {
      LoopIsEnabled() && ItefIsEnabled()
    }

    // ----- Keywords -----

    method ResetLoops()
      requires Valid()
      modifies this`jump, this`lpndx, lp
      ensures View() == LoopReset(old(View()))
    {
      jump := false;
      lpndx := 0;
      lp[0] := LoopLevel(LoopNormal, true, lp[0].iendx, 0);
    }

    method ResetItefs()
      requires Valid()
      modifies this`iendx, ie
      ensures View() == ItefReset(old(View()))
    {
      iendx := 0;
      ie[0] := ItefLevel(ItefNormal, false, false, false);
    }

    /** A loop head opens a new level that remembers where the head is. */
    method PushLoop(state: LoopState)
      requires Valid() && lpndx + 1 < lp.Length
      modifies this`jump, this`lpndx, lp
      ensures View() == LoopPush(old(View()), state)
    {
      var enable := IsEnabled();
      jump := false;
      lpndx := lpndx + 1;
      lp[lpndx] := LoopLevel(state, enable, iendx, foffs + loffs);
    }

    /** `done` seeks back to the head of its loop or not, and closes the level in any case. */
    method PopLoop()
      requires Valid() && lpndx > 0
      modifies this`jump, this`pos, this`lpndx, lp
      ensures View() == LoopPop(old(View()))
    {
      if lp[lpndx].enable {
        pos := lp[lpndx].topoffs;
        jump := true;
      } else {
        lp[lpndx] := lp[lpndx].(enable := true);
      }
      lp[lpndx] := lp[lpndx].(state := LoopNormal);
      lpndx := lpndx - 1;
    }

    method LoopKeyword(words: seq<Token>) returns (rest: seq<Token>, error: Error)
      requires Valid()
      modifies this, lp
      ensures Valid() && error != Internal
      ensures Staged(View(), rest, error) == LoopStage(old(View()), words)
      ensures history == old(history)
    {
      hide LoopReset, LoopPush, LoopPop, CmdEnabled;
      LoopStageKeepsInvariant(View(), words);
      rest, error := words, NoError;
      if words != [] {
        var cmd := words[0];
        if cmd == While || cmd == Until {
          rest := words[1..];
          if rest == [] || rest[0] == Word("") {
            error := BadArgument;
          } else if ie[iendx].state == ItefIf || AwaitsDo(lp[lpndx].state) || !stream || foffs < 0 {
            error := BadContext;
          } else if lpndx >= lp.Length - 1 {
            error := TooDeep;
          } else {
            PushLoop(if cmd == While then LoopWhile else LoopUntil);
          }
        } else if cmd == Do {
          rest := words[1..];
          if !AwaitsDo(lp[lpndx].state) {
            error := BadContext;
          } else {
            lp[lpndx] := lp[lpndx].(state := LoopDo);
          }
        } else if cmd == Done {
          rest := words[1..];
          if rest != [] {
            error := BadArgument;
          } else if lp[lpndx].state != LoopDo {
            error := BadContext;
          } else if lpndx < 1 {
            error := Internal;
          } else {
            PopLoop();
          }
        } else if AwaitsDo(lp[lpndx].state) {
          error := BadContext;
        }
        if error != NoError {
          ResetLoops();
        }
      }
    }

    /** `if`, but for the reset that follows an error. */
    method IfKeyword(cond: seq<Token>, inverted: bool) returns (error: Error)
      requires Valid()
      modifies this`iendx, ie
      ensures var r := IfStage(old(View()), cond, inverted);
              && error == r.error && (if error == NoError then View() == r.np else View() == old(View()))
              && r.words == cond && (error != NoError ==> r.np == ItefReset(old(View())))
      ensures Shape(View())
    {
      error := NoError;
      if cond == [] || cond[0] == Word("") {
        error := BadArgument;
      } else if ie[iendx].state == ItefIf {
        error := BadContext;
      } else if iendx >= ie.Length - 1 {
        error := TooDeep;
      } else {
        var disabled := !IsEnabled();
        iendx := iendx + 1;
        ie[iendx] := ItefLevel(ItefIf, disabled, false, inverted);
      }
    }

    method ItefKeyword(words: seq<Token>) returns (rest: seq<Token>, error: Error)
      requires Valid()
      modifies this`iendx, ie
      ensures Valid() && error != Internal
      ensures Staged(View(), rest, error) == ItefStage(old(View()), words)
    {
      hide IfStage, CmdEnabled;
      ItefStageKeepsInvariant(View(), words);
      rest, error := words, NoError;
      if words != [] {
        var cmd := words[0];
        if cmd == If {
          rest := words[1..];
          var inverted := rest != [] && rest[0] == Bang;
          if inverted {
            rest := rest[1..];
          }
          error := IfKeyword(rest, inverted);
        } else if cmd == Then {
          rest := words[1..];
          if ie[iendx].state != ItefIf {
            error := BadContext;
          } else {
            ie[iendx] := ie[iendx].(state := ItefThen);
          }
        } else if cmd == Else {
          rest := words[1..];
          if ie[iendx].state != ItefThen {
            error := BadContext;
          } else {
            ie[iendx] := ie[iendx].(state := ItefElse);
          }
        } else if cmd == Fi {
          rest := words[1..];
          if rest != [] {
            error := BadArgument;
          } else if ie[iendx].state != ItefThen && ie[iendx].state != ItefElse {
            error := BadContext;
          } else if iendx < 1 {
            error := Internal;
          } else {
            iendx := iendx - 1;
          }
        } else if ie[iendx].state == ItefIf {
          error := BadContext;
        }
        if error != NoError {
          ResetItefs();
        }
      }
    }

    // ----- Commands -----

    method SaveCommandResult(failed: bool) returns (ok: bool)
      requires Valid()
      modifies this`fail, lp, ie
      ensures Valid()
      ensures Saved(View(), ok) == SaveResult(old(View()), failed)
    {
      SaveResultKeepsInvariant(View(), failed);
      if lp[lpndx].state == LoopWhile {
        fail := false;
        lp[lpndx] := lp[lpndx].(enable := !failed);
        ok := true;
      } else if lp[lpndx].state == LoopUntil {
        fail := false;
        lp[lpndx] := lp[lpndx].(enable := failed);
        ok := true;
      } else if ie[iendx].state == ItefIf {
        fail := false;
        ie[iendx] := ie[iendx].(ifcond := ie[iendx].inverted != failed);
        ok := true;
      } else {
        fail := failed;
        ok := !failed;
      }
    }

    method CmdBreak()
      requires Valid()
      modifies this`iendx, lp
      ensures Valid()
      ensures View() == BreakLoop(old(View()))
    {
      if lp[lpndx].state == LoopDo {
        iendx := lp[lpndx].iendx;
        lp[lpndx] := lp[lpndx].(enable := false);
      }
    }

    method ExecuteCommand(w: World, words: seq<Token>) returns (ok: bool)
      requires Valid() && words != []
      modifies this, lp, ie
      ensures Valid()
      ensures Ran(View(), history, ok, NoError) == Execute(w, old(View()), old(history), words)
    {
      if IsBreak(words) {
        CmdBreak();
        ok := SaveCommandResult(false);
      } else {
        history := history + [Event(words, fail)];
        ok := SaveCommandResult(w.fails(history));
      }
    }

    method ParseOne(w: World, words: seq<Token>) returns (ok: bool, ghost error: Error)
      requires Valid()
      modifies this, lp, ie
      ensures Valid() && error != Internal
      ensures Ran(View(), history, ok, error) == ParseCommand(w, old(View()), old(history), words)
    {
      hide LoopStage, ItefStage, SaveResult, Execute;
      var rest, err := LoopKeyword(words);
      error := err;
      if err != NoError {
        ok := SaveCommandResult(true);
        return;
      }
      rest, err := ItefKeyword(rest);
      error := err;
      if err != NoError {
        ok := SaveCommandResult(true);
        return;
      }
      if rest == [] || !IsEnabled() {
        ok := true;
        return;
      }
      ok := ExecuteCommand(w, rest);
    }

    // ----- Lines and scripts -----

    /** strcspn(): the first separator at or after i, or the terminating NUL. */
    static method FindSeparator(buf: array<char>, i: nat, ghost line: string) returns (q: nat)
      requires i <= |line| < buf.Length && buf[|line|] == '\0'
      requires forall k | i <= k < |line| :: buf[k] == line[k] && line[k] != '\0'
      ensures q == NextSeparator(line, i)
    {
      q := i;
      while buf[q] != '\0' && !Separator(buf[q])
        invariant i <= q <= |line|
        invariant NextSeparator(line, i) == NextSeparator(line, q)
        decreases |line| - q
      {
        q := q + 1;
      }
    }

    /** strchr() for a double quote; returns the position of the terminating NUL if there is none. */
    static method FindQuote(buf: array<char>, i: nat, ghost line: string) returns (q: nat)
      requires i <= |line| < buf.Length && buf[|line|] == '\0'
      requires forall k | i <= k < |line| :: buf[k] == line[k] && line[k] != '\0'
      ensures q == NextQuote(line, i)
    {
      q := i;
      while buf[q] != '\0' && buf[q] != '"'
        invariant i <= q <= |line|
        invariant NextQuote(line, i) == NextQuote(line, q)
        decreases |line| - q
      {
        q := q + 1;
      }
    }

    method ClearJump()
      requires Valid()
      modifies this`jump
      ensures Valid() && View() == NoJump(old(View()))
    {
      jump := false;
    }

    method SaveOffset(working: nat)
      requires Valid()
      modifies this`loffs
      ensures Valid() && View() == SetLoffs(old(View()), working)
    {
      loffs := Low16(working);
    }

    method RunCommandText(sh: Shell, text: string) returns (ok: bool)
      requires Valid()
      modifies this, lp, ie
      ensures Valid()
      ensures Session(View(), history, ok) == RunText(sh, old(View()), old(history), text)
    {
      hide ParseCommand;
      ghost var error;
      ok, error := ParseOne(sh.world, sh.lex(text, history, fail));
    }

    /** Run the command that starts at `start` and has its NUL at e. */
    method RunTextAt(sh: Shell, buf: array<char>, start: nat, ghost e: nat, ghost line: string) returns (ok: bool)
      requires Valid() && start <= e <= |line| < buf.Length && buf[e] == '\0'
      requires forall k | start <= k < e :: buf[k] == line[k] && line[k] != '\0'
      modifies this, lp, ie
      ensures Valid()
      ensures Session(View(), history, ok) == RunText(sh, old(View()), old(history), line[start..e])
    {
      hide CString, RunText;
      TextAt(buf[..], start, line, e);
      ok := RunCommandText(sh, CString(buf[start..]));
    }

    /** nsh_parse: split the line in place and run its commands one by one. */
    method Parse(sh: Shell, buf: array<char>) returns (ok: bool)
      requires Valid() && '\0' in buf[..]
      modifies this, lp, ie, buf
      ensures Valid()
      ensures Session(View(), history, ok) == ParseLine(sh, old(View()), old(history), CString(old(buf[..])))
    {
      hide RunText, RunPieces, Scan, NextSeparator, NextQuote, Shape, LoopInvariant, ItefInvariant, SetLoffs, CString;
      ghost var line := CString(buf[..]);
      ghost var target := ParseLine(sh, View(), history, line);
      ScanHasPiece(line, 0, 0);
      var start, working := 0, 0;
      ClearJump();
      while !jump
        invariant Valid()
        invariant start <= working <= |line| < buf.Length && buf[|line|] == '\0'
        invariant forall k | start <= k < |line| :: buf[k] == line[k] && line[k] != '\0'
        invariant Scan(line, start, working).pieces == [] ==> Scan(line, start, working).unmatched
        invariant target == if jump then Session(View(), history, true)
                            else RunPieces(sh, View(), history, Scan(line, start, working))
        decreases !jump, |line| - working
      {
        ghost var np := View();
        SaveOffset(working);
        var q := FindSeparator(buf, working, line);
        if buf[q] == '\0' || EndsLine(buf[q]) {
          RunsLast(sh, np, history, line, start, working);
          ok := RunTextAt(sh, buf, start, |line|, line);
          assert line[start..|line|] == line[start..];
          return;
        } else if buf[q] == ';' {
          RunsOne(sh, np, history, line, start, working, q);
          buf[q] := '\0';
          ok := RunTextAt(sh, buf, start, q, line);
          if !ok {
            return;
          }
          start, working := q + 1, q + 1;
        } else {
          RunsOn(sh, np, history, line, start, working, q);
          var t := FindQuote(buf, q + 1, line);
          if buf[t] == '\0' {
            ok := false;
            return;
          }
          working := t + 1;
        }
      }
      ok := true;
    }

    /** fgets(): copy the next line into the line buffer, as much of it as fits. */
    static method Fgets(file: string, pos: nat, buf: array<char>) returns (n: nat)
      requires pos < |file| && buf.Length > 0
      modifies buf
      ensures n < buf.Length && buf[n] == '\0'
      ensures buf[..n] == ReadLine(file, pos, buf.Length)
    {
      hide ReadLine;
      n := 0;
      ghost var line := ReadLine(file, pos, buf.Length);
      ghost var size := |line|;
      ReadLineUnfolds(file, pos, buf.Length);
      var more := buf.Length > 1;
      while more
        invariant 0 <= n <= size < buf.Length && pos + n <= |file|
        invariant buf[..n] == file[pos..pos + n]
        invariant if more then n < buf.Length - 1 && ToRead(file, pos + n, buf.Length - n, size - n) else n == size
        decreases buf.Length - n
      {
        OneRead(file, pos + n, buf.Length - n, size - n);
        var c := file[pos + n];
        buf[n] := c;
        n := n + 1;
        more := n < buf.Length - 1 && c != '\n' && pos + n < |file|;
      }
      buf[n] := '\0';
    }

    /** The next line to be read has k characters. */
    static ghost predicate ToRead(file: string, pos: nat, limit: nat, k: nat) {
      pos < |file| && |ReadLine(file, pos, limit)| == k
    }

    static lemma OneRead(file: string, pos: nat, limit: nat, k: nat)
      requires ToRead(file, pos, limit, k) && limit > 1
      ensures k > 0
      ensures if limit > 2 && file[pos] != '\n' && pos + 1 < |file| then ToRead(file, pos + 1, limit - 1, k - 1)
              else k == 1
    {
      hide ReadLine;
      ReadLineUnfolds(file, pos, limit);
    }

    /** nsh_script: read and parse lines until the file ends, or a line fails while `set +e` is
        not in force, or `turns` lines have been read; then `open` tells whether to go on. */
    method RunScript(sh: Shell, file: string, buf: array<char>, turns: nat) returns (ok: bool, open: bool)
      requires Valid() && buf.Length > 0
      modifies this, lp, ie, buf
      ensures Valid()
      ensures Reader(View(), history, ok, open) ==
              Turns(sh, file, buf.Length, Reader(old(View()), old(history), false, true), turns)
    {
      hide ParseLine, ReadLine, CString, Turn, Shape, LoopInvariant, ItefInvariant;
      ok, open := false, true;
      ghost var target := Turns(sh, file, buf.Length, Reader(View(), history, ok, open), turns);
      var n := turns;
      while n > 0
        invariant Valid()
        invariant target == Turns(sh, file, buf.Length, Reader(View(), history, ok, open), n)
      {
        ok, open := RunTurn(sh, file, buf, ok, open);
        n := n - 1;
      }
    }

    /** One turn of the loop of nsh_script. */
    method RunTurn(sh: Shell, file: string, buf: array<char>, ok: bool, open: bool) returns (ok': bool, open': bool)
      requires Valid() && buf.Length > 0
      modifies this, lp, ie, buf
      ensures Valid()
      ensures Reader(View(), history, ok', open') ==
              Turn(sh, file, buf.Length, Reader(old(View()), old(history), ok, open))
    {
      hide ParseLine, ReadLine, CString, Shape, LoopInvariant, ItefInvariant;
      ok', open' := ok, open;
      if open {
        BeginLine();
        if 0 <= pos < |file| {
          var n := Fgets(file, pos, buf);
          Advance(n);
          CStringPrefix(buf[..], n);
          ok' := Parse(sh, buf);
          open' := ok' || sh.world.ignores(history);
        } else {
          open' := false;
        }
      }
    }

    method BeginLine()
      requires Valid()
      modifies this`foffs, this`loffs
      ensures Valid() && View() == old(View()).(at := old(View()).at.(foffs := pos, loffs := 0))
    {
      foffs := pos;
      loffs := 0;
    }

    method Advance(n: nat)
      requires Valid()
      modifies this`pos
      ensures Valid() && View() == old(View()).(at := old(View()).at.(pos := old(pos) + n))
    {
      pos := pos + n;
    }
  }
}
