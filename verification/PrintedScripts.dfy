/** The text of a program, written with the keywords of the shell, and what NSH does with a script
    file that holds it. */
module PrintedScripts {
  import opened ParserState
  import opened FlatMachine
  import opened LoopOffsets
  import opened BlankCommands
  import opened Script
  import opened ScriptLayout
  import opened ScriptRuns
  import opened Structured
  import opened StructuredTheorems
  import opened Arguments
  import opened ShellWords

  /** A token that can be written bare in a script and is read back. */
  predicate Writable(t: Token) {
    && Proper(t)
    && (t.Word? ==> Printable(t.text) && forall c | c in t.text :: Inner(c) && c != ';' && c != '#' && c != '"')
  }

  predicate WritableProgram(b: Block) {
    forall c | c in Flatten(b) :: forall t | t in c :: Writable(t)
  }

  function TextsOf(c: seq<Token>): (words: seq<string>)
    ensures |words| == |c| && forall i | 0 <= i < |c| :: words[i] == TextOf(c[i])
  {
    seq(|c|, i requires 0 <= i < |c| => TextOf(c[i]))
  }

  /** A command: its tokens, separated by single spaces. */
  function Printed(c: seq<Token>, last: bool): Source {
    Source(Spaced(TextsOf(c)), "", c, last)
  }

  /** The commands of a program, arranged on lines as `lasts` says. */
  function Print(b: Block, lasts: seq<bool>): (src: seq<Source>)
    requires |lasts| == |Flatten(b)|
    ensures |src| == |lasts|
    ensures forall i | 0 <= i < |src| :: src[i] == Printed(Flatten(b)[i], lasts[i])
  {
    seq(|lasts|, i requires 0 <= i < |lasts| => Printed(Flatten(b)[i], lasts[i]))
  }

  lemma KeywordIsPlain(t: Token)
    requires !t.Word?
    ensures var text := TextOf(t);
            Printable(text) && forall c | c in text :: Inner(c) && c != ';' && c != '#' && c != '"'
  {
  }

  lemma WritableIsSafe(t: Token, gap: string)
    requires Writable(t) && (gap == "" || gap == " ")
    ensures SafeSpelling(Spelling(gap, TextOf(t), false))
  {
    hide Printable;
    if !t.Word? {
      KeywordIsPlain(t);
    }
    assert forall k | 0 <= k < |TextOf(t)| :: TextOf(t)[k] in TextOf(t);
  }

  /** A printed command is read back wherever it stands in a script. */
  lemma PrintedIsGood(world: World, c: seq<Token>, last: bool)
    requires forall t | t in c :: Writable(t)
    ensures GoodSource(WordShell(world), Printed(c, last))
  {
    hide GoodSource, SafeSpelling, TextOf, Writable, Spaced, Spelled;
    var words := TextsOf(c);
    var sps := Singly(words);
    forall sp | sp in sps
      ensures SafeSpelling(sp)
    {
      var i :| 0 <= i < |sps| && sps[i] == sp;
      assert c[i] in c;
      WritableIsSafe(c[i], sp.gap);
    }
    SinglyIsGood(sps);
    SinglyIsSpaced(words);
    ReadsTokens(c);
    assert Spoken(sps) == words;
    NoQuoteInPrinted(c);
    assert SourceOf(sps, "", "", last) == Printed(c, last);
    SpelledWordsAreGoodSource(world, sps, "", "", last);
  }

  lemma SinglyIsGood(sps: seq<Spelling>)
    requires forall sp | sp in sps :: SafeSpelling(sp) && !sp.quoted
    requires forall i | 0 < i < |sps| :: sps[i].gap == " "
    ensures GoodSpellings(sps)
  {
    hide Printable;
    forall i | 0 <= i < |sps|
      ensures GoodSpelling(sps[i]) && (i > 0 ==> Follows(sps[i - 1], Spell(sps[i])))
    {
      assert sps[i] in sps;
    }
  }

  lemma SinglyIsSpaced(words: seq<string>)
    ensures Spelled(Singly(words)) + "" == Spaced(words)
  {
    if words != [] {
      SpacedIsSpelled(words, 0);
      assert Singly(words)[0..] == Singly(words) && words[0..] == words;
    }
  }

  lemma ReadsTokens(c: seq<Token>)
    requires forall t | t in c :: Writable(t)
    ensures TokensOf(TextsOf(c)) == c
  {
    forall i | 0 <= i < |c|
      ensures TokenOf(TextOf(c[i])) == c[i]
    {
      assert Writable(c[i]);
      TokensAreTexts("", c[i]);
    }
  }

  lemma {:induction false} NoQuoteInSpaced(words: seq<string>)
    requires forall word | word in words :: '"' !in word
    ensures '"' !in Spaced(words)
  {
    if words != [] {
      NoQuoteInSpaced(words[1..]);
    }
  }

  lemma NoQuoteInPrinted(c: seq<Token>)
    requires forall t | t in c :: Writable(t)
    ensures '"' !in Spaced(TextsOf(c))
  {
    forall word | word in TextsOf(c)
      ensures '"' !in word
    {
      var i :| 0 <= i < |c| && word == TextOf(c[i]);
      assert Writable(c[i]);
      if !c[i].Word? {
        KeywordIsPlain(c[i]);
      }
    }
    NoQuoteInSpaced(TextsOf(c));
  }

  // ----- A script without empty commands -----

  lemma {:induction false} LastOnLineIs(prog: seq<Item>, i: nat)
    requires i < |prog| && prog[|prog| - 1].last && forall k | 0 <= k < |prog| :: prog[k].words != []
    ensures LastOnLine(prog, i) == prog[i].last
  {
  }

  lemma {:induction false} KeptAll(prog: seq<Item>, i: nat)
    requires i <= |prog| && (prog != [] ==> prog[|prog| - 1].last)
    requires forall k | 0 <= k < |prog| :: prog[k].words != []
    ensures Kept(prog, i) == prog[..i]
  {
    if i > 0 {
      KeptAll(prog, i - 1);
      LastOnLineIs(prog, i - 1);
      assert prog[..i] == prog[..i - 1] + [prog[i - 1]];
    }
  }

  lemma {:induction false} TextHasWords(b: Block)
    requires WellWorded(b)
    ensures [] !in Flatten(b)
  {
    match b
    case Nil =>
    case Cmd(_, next) =>
      TextHasWords(next);
    case Cond(_, _, _, thn, _, _, els, next) =>
      TextHasWords(thn);
      TextHasWords(els);
      TextHasWords(next);
    case Loop(_, _, _, body, next) =>
      TextHasWords(body);
      TextHasWords(next);
  }

  // ----- The theorem on printed programs -----

  /** The program can be printed in this arrangement: its lines fit, and the last one ends. */
  ghost predicate Prints(w: World, b: Block, lasts: seq<bool>, limit: nat) {
    && |lasts| == |Flatten(b)| && WritableProgram(b) && limit <= 0x1_0000
    && (lasts != [] ==> lasts[|lasts| - 1])
    && var src := Print(b, lasts);
       && (forall i | 0 <= i < |src| :: Off(src, NextLine(Items(src), i)) - Off(src, i) < limit)
       && KeepsLines(w, Items(src))
  }

  lemma PrintHoldsProgram(w: World, b: Block, lasts: seq<bool>, limit: nat, depth: nat)
    requires Prints(w, b, lasts, limit) && Readable(b, depth)
    ensures HoldsProgram(WordShell(w), Print(b, lasts), limit, b, depth)
    ensures Compact(Items(Print(b, lasts))) == Items(Print(b, lasts))
  {
    hide GoodSource, Off, NextLine, Kept, KeepsLines, Writable, Spaced, Sound, LastOnLine, Flatten;
    var src := Print(b, lasts);
    TextHasWords(b);
    forall i | 0 <= i < |src|
      ensures GoodSource(WordShell(w), src[i]) && src[i].words != []
    {
      assert Flatten(b)[i] in Flatten(b);
      PrintedIsGood(w, Flatten(b)[i], lasts[i]);
    }
    KeptAll(Items(src), |src|);
    assert Items(src)[..|src|] == Items(src);
  }

  /** Bytes to meaning, with the keywords as they are written: the script file with the text of a
      program, printed in any arrangement on lines, runs exactly what NSH makes of the program. */
  lemma PrintedProgramActs(w: World, b: Block, lasts: seq<bool>, limit: nat, np: Parser, h: History, depth: nat,
                           fuel: nat, t: nat)
    requires Prints(w, b, lasts, limit) && Readable(b, depth) && AtStart(np, depth)
    requires Acts(w, b, false, State(h, np.fail), fuel).Result?
    requires !Turns(WordShell(w), Render(Print(b, lasts)), limit, Opened(np, h), t).open
    ensures Left(Print(b, lasts), Turns(WordShell(w), Render(Print(b, lasts)), limit, Opened(np, h), t), depth,
                 Acts(w, b, false, State(h, np.fail), fuel))
  {
    hide WritableProgram, KeepsLines, HoldsProgram, Readable, AtStart, Acts, Turns, Render, Left, Print, Flatten;
    PrintHoldsProgram(w, b, lasts, limit, depth);
    FileActs(WordShell(w), Print(b, lasts), limit, b, np, h, depth, fuel, t);
  }

  /** `until c;do x;done`. */
  function UntilScript(): Block {
    Loop(true, [Word("c")], [Word("x")], Nil, Nil)
  }

  lemma UntilFlat()
    ensures Flatten(UntilScript()) == [[Until, Word("c")], [Do, Word("x")], [Done]]
  {
    assert Flatten(Nil) == [];
    assert LoopWords(true, [Word("c")]) == [Until, Word("c")] && [Do] + [Word("x")] == [Do, Word("x")];
  }

  lemma UntilSource() returns (src: seq<Source>)
    ensures |Flatten(UntilScript())| == 3 && src == Print(UntilScript(), [false, false, true])
    ensures src == [Source("until c", "", [Until, Word("c")], false), Source("do x", "", [Do, Word("x")], false),
                    Source("done", "", [Done], true)]
  {
    hide Flatten;
    UntilFlat();
    src := Print(UntilScript(), [false, false, true]);
    var c, x := [Until, Word("c")], [Do, Word("x")];
    assert TextsOf(c) == ["until", "c"] && TextsOf(x) == ["do", "x"] && TextsOf([Done]) == ["done"];
    assert ["until", "c"][1..] == ["c"] && ["do", "x"][1..] == ["x"];
    assert Spaced(["until", "c"]) == "until" + " " + "c" == "until c";
    assert Spaced(["do", "x"]) == "do" + " " + "x" == "do x";
  }

  lemma UntilText()
    ensures |Flatten(UntilScript())| == 3
    ensures Render(Print(UntilScript(), [false, false, true])) == "until c;do x;done\n"
  {
    hide Print, Flatten;
    var src := UntilSource();
    assert src[1..] == [src[1], src[2]] && src[1..][1..] == [src[2]] && src[1..][1..][1..] == [];
    assert Render([src[2]]) == "done" + "" + "\n" + "" == "done\n";
    assert Render(src[1..]) == "do x" + "" + ";" + "done\n" == "do x;done\n";
    assert Render(src) == "until c" + "" + ";" + "do x;done\n" == "until c;do x;done\n";
  }

  lemma UntilPrints(w: World)
    requires forall h: History :: !w.ignores(h)
    ensures Prints(w, UntilScript(), [false, false, true], 80) && Readable(UntilScript(), 2)
  {
    hide Print, Flatten, Render, NextLine, Off;
    var b := UntilScript();
    var src := UntilSource();
    UntilFits(src);
    UntilIsWritable();
    assert WellWorded(Nil) && IfDepth(Nil) == 0 && LoopDepth(Nil) == 0;
    assert SoundAfter([Word("x")], Nil, Body(false)) && Sound(Nil, Outside);
    assert Sound(b, Outside);
  }

  lemma UntilFits(src: seq<Source>)
    requires src == [Source("until c", "", [Until, Word("c")], false), Source("do x", "", [Do, Word("x")], false),
                     Source("done", "", [Done], true)]
    ensures forall i | 0 <= i < |src| :: Off(src, NextLine(Items(src), i)) - Off(src, i) < 80
  {
    hide Written, NextLine, Off;
    var prog := Items(src);
    assert NextLine(prog, 2) == 3 && NextLine(prog, 1) == 3 && NextLine(prog, 0) == 3 by {
      NextLineIs(prog);
    }
    OffsetsOf(src);
  }

  lemma NextLineIs(prog: seq<Item>)
    requires |prog| == 3 && !prog[0].last && !prog[1].last && prog[2].last
    ensures NextLine(prog, 2) == 3 && NextLine(prog, 1) == 3 && NextLine(prog, 0) == 3
  {
    assert NextLine(prog, 2) == 3;
    assert NextLine(prog, 1) == NextLine(prog, 2);
  }

  lemma OffsetsOf(src: seq<Source>)
    requires |src| == 3
    ensures Off(src, 3) == |Written(src[0])| + |Written(src[1])| + |Written(src[2])|
    ensures forall i | 0 <= i < 3 :: Written(src[i]) == src[i].text + src[i].comment + [Terminator(src[i])]
  {
    assert Off(src, 1) == |Written(src[0])|;
    assert Off(src, 2) == Off(src, 1) + |Written(src[1])|;
  }

  lemma UntilIsWritable()
    ensures WritableProgram(UntilScript())
  {
    UntilFlat();
    assert "c" !in KEYWORDS && "x" !in KEYWORDS by {
      assert |"c"| == 1 && |"x"| == 1 && |"!"| == 1 && "c"[0] == 'c' && "x"[0] == 'x' && "!"[0] == '!';
    }
    assert Writable(Word("c")) && Writable(Word("x"));
  }

  /** `c` fails twice. */
  function TwoFailures(): World {
    World(h => |h| == 1 || |h| == 3, _ => false)
  }

  lemma UntilActs()
    ensures var c, x := Event([Word("c")], false), Event([Word("x")], false);
            Acts(TwoFailures(), UntilScript(), false, State([], false), 9) ==
            Result(Normal, State([c, x, c, x, c], false))
  {
    var w, b := TwoFailures(), UntilScript();
    var c, x := [Word("c")], [Word("x")];
    var s1 := State([Event(c, false)], false);
    var s2 := State([Event(c, false), Event(x, false)], false);
    var s3 := State([Event(c, false), Event(x, false), Event(c, false)], false);
    var s4 := State([Event(c, false), Event(x, false), Event(c, false), Event(x, false)], false);
    var s5 := State([Event(c, false), Event(x, false), Event(c, false), Event(x, false), Event(c, false)], false);
    assert RunCommand(w, c, State([], false)) == s1.(fail := true) && RunCommand(w, c, s2) == s3.(fail := true);
    assert RunCommand(w, x, s1) == s2 && RunCommand(w, x, s3) == s4 && RunCommand(w, c, s4) == s5;
    hide Acts;
    ActsCmd(w, x, Nil, true, s1, 8);
    ActsCmd(w, x, Nil, true, s3, 7);
    ActsNothing(w, true, s2, 7);
    ActsNothing(w, true, s4, 6);
    ActsNothing(w, false, s5, 6);
    ActsLoop(w, b, false, s4, 7);
    ActsLoop(w, b, false, s2, 8);
    ActsLoop(w, b, false, State([], false), 9);
  }

  /** A file with this very text: as long as `c` fails, `x` is run and `c` again. */
  lemma UntilExample(np: Parser) returns (t: nat)
    requires AtStart(np, 2) && !np.fail
    ensures var c, x := Event([Word("c")], false), Event([Word("x")], false);
            var s := Turns(WordShell(TwoFailures()), "until c;do x;done\n", 80, Opened(np, []), t);
            !s.open && s.ok && !s.np.fail && s.history == [c, x, c, x, c]
  {
    hide Turns, AtStart, Acts, Render, Print, Flatten, TwoFailures, UntilScript;
    UntilText();
    UntilActs();
    t := UntilRuns(np);
  }

  lemma UntilRuns(np: Parser) returns (t: nat)
    requires AtStart(np, 2) && !np.fail && |Flatten(UntilScript())| == 3
    requires var r := Acts(TwoFailures(), UntilScript(), false, State([], false), 9);
             r.Result? && r.out == Normal && !r.s.fail
    ensures var s := Turns(WordShell(TwoFailures()), Render(Print(UntilScript(), [false, false, true])), 80,
                           Opened(np, []), t);
            var r := Acts(TwoFailures(), UntilScript(), false, State([], false), 9);
            !s.open && s.ok && !s.np.fail && s.history == r.s.history
  {
    hide Turns, Acts, Readable, HoldsProgram, Render, Prints, Print, Flatten, TwoFailures, UntilScript;
    hide Compact, BlankSince;
    var w, b, lasts := TwoFailures(), UntilScript(), [false, false, true];
    NeverIgnores();
    UntilPrints(w);
    PrintHoldsProgram(w, b, lasts, 80, 2);
    FileEndsIffActsEnd(WordShell(w), Print(b, lasts), 80, b, np, [], 2);
    assert Acts(w, b, false, State([], np.fail), 9).Result?;
    t :| !Turns(WordShell(w), Render(Print(b, lasts)), 80, Opened(np, []), t).open;
    PrintedProgramActs(w, b, lasts, 80, np, [], 2, 9, t);
  }

  lemma NeverIgnores()
    ensures forall h: History :: !TwoFailures().ignores(h)
  {
  }
}
