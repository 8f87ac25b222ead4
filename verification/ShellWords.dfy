/** The tokeniser of `Arguments` as the lexer of `Script`: commands written as words separated
    by spaces are read back as those words, wherever they stand in a script. */
module ShellWords {
  import opened ParserState
  import opened FlatMachine
  import opened Script
  import opened LoopOffsets
  import opened ScriptLayout
  import opened Arguments

  /** The strcmp() chains of nsh_loop, nsh_itef and the command table. */
  function TokenOf(word: string): Token {
    if word == "while" then While
    else if word == "until" then Until
    else if word == "do" then Do
    else if word == "done" then Done
    else if word == "if" then If
    else if word == "!" then Bang
    else if word == "then" then Then
    else if word == "else" then Else
    else if word == "fi" then Fi
    else if word == "break" then Break
    else Word(word)
  }

  /** How a token is written. */
  function TextOf(t: Token): string {
    match t
    case While => "while"
    case Until => "until"
    case Do => "do"
    case Done => "done"
    case If => "if"
    case Bang => "!"
    case Then => "then"
    case Else => "else"
    case Fi => "fi"
    case Break => "break"
    case Word(text) => text
  }

  const KEYWORDS: set<string> := {"while", "until", "do", "done", "if", "!", "then", "else", "fi", "break"}

  /** A word that is not spelled like a keyword. */
  predicate Proper(t: Token) {
    t.Word? ==> t.text !in KEYWORDS
  }

  /** Telling keywords apart is undone by writing tokens down, and the other way round exactly for
      tokens that are not words spelled like keywords. */
  lemma TokensAreTexts(word: string, t: Token)
    ensures TextOf(TokenOf(word)) == word && Proper(TokenOf(word))
    ensures TokenOf(TextOf(t)) == t <==> Proper(t)
  {
    assert |"while"| == 5 && |"until"| == 5 && |"break"| == 5 && |"done"| == 4 && |"then"| == 4 && |"else"| == 4;
    assert "while"[0] == 'w' && "until"[0] == 'u' && "break"[0] == 'b';
    assert "done"[0] == 'd' && "then"[0] == 't' && "else"[0] == 'e';
    assert "do"[0] == 'd' && "if"[0] == 'i' && "fi"[0] == 'f';
  }

  function TokensOf(words: seq<string>): (ts: seq<Token>)
    ensures |ts| == |words|
    ensures forall i | 0 <= i < |words| :: ts[i] == TokenOf(words[i])
  {
    seq(|words|, i requires 0 <= i < |words| => TokenOf(words[i]))
  }

  /** The shell that reads commands with nsh_argument and leaves the expansion of arguments to
      the world, which knows what has been run. */
  function WordShell(world: World): Shell {
    Shell(world, (text, history, fail) => TokensOf(ArgumentsFrom(text, 0)))
  }

  // ----- Texts that a script file may hold -----

  lemma {:induction false} CleanJoin(s: string, i: nat, e: nat, end: nat, quoted: bool)
    requires i <= e <= end <= |s| && Clean(s, i, e, quoted) && Clean(s, e, end, false)
    ensures Clean(s, i, end, quoted)
    decreases e - i
  {
    if i < e {
      CleanJoin(s, i + 1, e, end, if s[i] == '"' then !quoted else quoted);
    }
  }

  lemma CleanConcat(a: string, b: string)
    requires Clean(a, 0, |a|, false) && Clean(b, 0, |b|, false)
    ensures Clean(a + b, 0, |a + b|, false)
  {
    CleanShift(a, a + b, 0, 0, false);
    assert (a + b)[|a|..|a| + |b|] == b;
    CleanShift(b, a + b, |a|, 0, false);
    CleanJoin(a + b, 0, |a|, |a + b|, false);
  }

  /** A character that neither ends a line nor a text. */
  predicate Inner(c: char) {
    c != '\n' && c != '\0'
  }

  lemma {:induction false} CleanText(s: string, i: nat, e: nat)
    requires i <= e <= |s| && forall k | i <= k < e :: Inner(s[k]) && s[k] != ';' && s[k] != '#' && s[k] != '"'
    ensures Clean(s, i, e, false)
    decreases e - i
  {
    if i < e {
      CleanText(s, i + 1, e);
    }
  }

  lemma {:induction false} CleanQuotedText(s: string, i: nat, e: nat)
    requires i <= e < |s| && s[e] == '"' && forall k | i <= k < e :: Inner(s[k]) && s[k] != '"'
    ensures Clean(s, i, e + 1, true)
    decreases e - i
  {
    if i < e {
      CleanQuotedText(s, i + 1, e);
    }
  }

  predicate Blank(s: string) {
    forall k | 0 <= k < |s| :: s[k] == ' ' || s[k] == '\t'
  }

  /** A word as it may be written in a script: set off by spaces and tabs, and either in double
      quotes, or bare and without the characters that end commands. */
  predicate SafeSpelling(sp: Spelling) {
    && GoodSpelling(sp)
    && Blank(sp.gap)
    && forall k | 0 <= k < |sp.arg| ::
         Inner(sp.arg[k]) && (!sp.quoted ==> sp.arg[k] != ';' && sp.arg[k] != '#' && sp.arg[k] != '"')
  }

  lemma CleanSpelling(sp: Spelling)
    requires SafeSpelling(sp)
    ensures Clean(Spell(sp), 0, |Spell(sp)|, false)
  {
    hide Clean;
    CleanText(sp.gap, 0, |sp.gap|);
    if sp.quoted {
      var text := "\"" + sp.arg + "\"";
      CleanQuotedText(text, 1, |sp.arg| + 1);
      CleanOpens(text);
      CleanConcat(sp.gap, text);
    } else {
      CleanText(sp.arg, 0, |sp.arg|);
      CleanConcat(sp.gap, sp.arg);
    }
  }

  lemma CleanOpens(s: string)
    requires s != "" && s[0] == '"' && Clean(s, 1, |s|, true)
    ensures Clean(s, 0, |s|, false)
  {
  }

  lemma {:induction false} CleanSpelled(sps: seq<Spelling>)
    requires forall sp | sp in sps :: SafeSpelling(sp)
    ensures Clean(Spelled(sps), 0, |Spelled(sps)|, false)
  {
    hide Clean, Spell, SafeSpelling;
    if sps == [] {
      CleanText("", 0, 0);
    } else {
      CleanSpelling(sps[0]);
      CleanSpelled(sps[1..]);
      CleanConcat(Spell(sps[0]), Spelled(sps[1..]));
    }
  }

  lemma {:induction false} BlankHasNoWords(blank: string, tail: string)
    requires Blank(blank) && NoWords(tail)
    ensures NoWords(blank + tail)
  {
    if blank == "" {
      assert blank + tail == tail;
    } else {
      assert (blank + tail)[1..] == blank[1..] + tail;
      BlankHasNoWords(blank[1..], tail);
    }
  }

  lemma TailHasNoWords(s: Source)
    requires GoodComment(s)
    ensures NoWords(Tail(s))
  {
    if s.last && s.comment == "" {
      assert Tail(s) == "\n" && Tail(s)[1..] == "";
    }
  }

  /** The command spelled so, then blanks, then perhaps a comment. */
  function SourceOf(sps: seq<Spelling>, blank: string, comment: string, last: bool): Source {
    Source(Spelled(sps) + blank, comment, TokensOf(Spoken(sps)), last)
  }

  /** Any words, bare or quoted, set off by any spaces and tabs, with blanks before and after them
      and perhaps a comment, are a command that a script file may hold; so are no words at all.
      Only a loop head may have no quotes, and a comment must be set off from the words. */
  lemma SpelledWordsAreGoodSource(world: World, sps: seq<Spelling>, blank: string, comment: string, last: bool)
    requires GoodSpellings(sps) && (forall sp | sp in sps :: SafeSpelling(sp)) && Blank(blank)
    requires var s := SourceOf(sps, blank, comment, last);
             && GoodComment(s) && (comment != "" && sps != [] ==> blank != "")
             && (IsLoopHead(s.words) ==> '"' !in s.text)
    ensures GoodSource(WordShell(world), SourceOf(sps, blank, comment, last))
  {
    hide ArgumentsFrom, Clean, NoWords, Spelled, SafeSpelling;
    var s := SourceOf(sps, blank, comment, last);
    CleanSpelled(sps);
    CleanText(blank, 0, |blank|);
    CleanConcat(Spelled(sps), blank);
    TailHasNoWords(s);
    BlankHasNoWords(blank, Tail(s));
    var text := s.text + Tail(s);
    assert text[0..] == Spelled(sps) + (blank + Tail(s));
    TailSetsOff(s, blank, sps);
    ReadSpelled(text, 0, sps, blank + Tail(s));
  }

  lemma TailSetsOff(s: Source, blank: string, sps: seq<Spelling>)
    requires GoodComment(s) && Blank(blank) && (s.comment != "" && sps != [] ==> blank != "")
    ensures sps != [] ==> SetOff(blank + Tail(s))
  {
  }
}
