/** Script files that hold a given list of commands, and the proof that reading such a file by
    lines and byte offsets is the same as running the list of commands. */
module ScriptLayout {
  import opened CStrings
  import opened ParserState
  import opened LineSplit
  import opened Script
  import opened FlatMachine
  import opened LoopOffsets

  /** A command in the file: its text, a comment that may follow it, the words NSH reads it as,
      and whether a newline rather than a semicolon comes next.  Blank lines, lines with only a
      comment and empty commands between semicolons are commands without words. */
  datatype Source = Source(text: string, comment: string, words: seq<Token>, last: bool)

  function Written(s: Source): string {
    s.text + s.comment + [Terminator(s)]
  }

  function Terminator(s: Source): char {
    if s.last then '\n' else ';'
  }

  function Render(src: seq<Source>): string {
    if src == [] then "" else Written(src[0]) + Render(src[1..])
  }

  /** The byte offset at which command i begins. */
  function Off(src: seq<Source>, i: nat): nat
    requires i <= |src|
  {
    if i == 0 then 0 else Off(src, i - 1) + |Written(src[i - 1])|
  }

  function Offsets(src: seq<Source>): (off: Renaming)
    ensures |off| == |src| + 1 && off[0] == 0
    ensures forall i | 0 <= i <= |src| :: off[i] == Off(src, i)
  {
    seq(|src| + 1, i requires 0 <= i <= |src| => Off(src, i))
  }

  function Items(src: seq<Source>): (items: seq<Item>)
    ensures |items| == |src|
    ensures forall i | 0 <= i < |src| :: items[i] == Item(src[i].words, src[i].last)
  {
    seq(|src|, i requires 0 <= i < |src| => Item(src[i].words, src[i].last))
  }

  // ----- Where things are in the file -----

  lemma {:induction false} OffMonotone(src: seq<Source>, i: nat, j: nat)
    requires i <= j <= |src|
    ensures Off(src, i) + (j - i) <= Off(src, j)
  {
    if i < j {
      OffMonotone(src, i, j - 1);
    }
  }

  lemma {:induction false} OffShift(src: seq<Source>, i: nat)
    requires src != [] && i < |src|
    ensures Off(src, i + 1) == |Written(src[0])| + Off(src[1..], i)
  {
    if i > 0 {
      OffShift(src, i - 1);
    }
  }

  lemma DropHead(head: string, rest: string, k: nat)
    requires k <= |rest|
    ensures (head + rest)[|head| + k..] == rest[k..]
  {
  }

  lemma {:induction false} RenderAt(src: seq<Source>, i: nat)
    requires i <= |src|
    ensures Off(src, i) <= |Render(src)| && Render(src)[Off(src, i)..] == Render(src[i..])
    decreases |src|
  {
    if i == 0 {
      assert src[0..] == src;
      assert Render(src)[0..] == Render(src);
    } else {
      hide Written;
      OffShift(src, i - 1);
      RenderAt(src[1..], i - 1);
      assert src[1..][i - 1..] == src[i..];
      var head := Written(src[0]);
      assert Render(src) == head + Render(src[1..]);
      DropHead(head, Render(src[1..]), Off(src[1..], i - 1));
    }
  }

  lemma FileLength(src: seq<Source>)
    ensures |Render(src)| == Off(src, |src|)
  {
    RenderAt(src, |src|);
    assert src[|src|..] == [];
  }

  /** The file around command i. */
  lemma FileAt(src: seq<Source>, i: nat)
    requires i < |src|
    ensures var file := Render(src);
            var p := Off(src, i);
            Off(src, i + 1) == p + |Written(src[i])| <= |file| && file[p..Off(src, i + 1)] == Written(src[i])
  {
    hide Written;
    var file := Render(src);
    var p := Off(src, i);
    RenderAt(src, i);
    var w := Written(src[i]);
    var rest := w + Render(src[i + 1..]);
    assert src[i..][0] == src[i] && src[i..][1..] == src[i + 1..];
    assert file[p..] == rest;
    assert rest[..|w|] == w;
    assert file[p..][..|w|] == file[p..p + |w|];
  }

  // ----- Texts that survive the splitting of lines -----

  /** From i to e, the text has no unquoted semicolon or '#', no newline and no NUL, and its
      quotes are closed at e. */
  predicate Clean(s: string, i: nat, e: nat, quoted: bool)
    requires i <= e <= |s|
    decreases e - i
  {
    if i == e then
      !quoted
    else
      && s[i] != '\n' && s[i] != '\0'
      && (quoted || (s[i] != ';' && s[i] != '#'))
      && Clean(s, i + 1, e, if s[i] == '"' then !quoted else quoted)
  }

  lemma {:induction false} CleanShift(t: string, line: string, s: nat, i: nat, quoted: bool)
    requires s + |t| <= |line| && line[s..s + |t|] == t && i <= |t|
    ensures Clean(line, s + i, s + |t|, quoted) == Clean(t, i, |t|, quoted)
    decreases |t| - i
  {
    if i < |t| {
      assert line[s + i] == line[s..s + |t|][i];
      CleanShift(t, line, s, i + 1, if t[i] == '"' then !quoted else quoted);
    }
  }

  lemma {:induction false} CleanNoNewline(s: string, i: nat, e: nat, quoted: bool, k: nat)
    requires i <= k < e <= |s| && Clean(s, i, e, quoted)
    ensures s[k] != '\n' && s[k] != '\0'
    decreases k - i
  {
    if i < k {
      CleanNoNewline(s, i + 1, e, if s[i] == '"' then !quoted else quoted, k);
    }
  }

  lemma {:induction false} CleanSkip(s: string, i: nat, q: nat, e: nat, quoted: bool)
    requires i <= q <= e <= |s| && Clean(s, i, e, quoted)
    requires forall k | i <= k < q :: s[k] != '"'
    ensures Clean(s, q, e, quoted)
    decreases q - i
  {
    if i < q {
      CleanSkip(s, i + 1, q, e, quoted);
    }
  }

  /** The offset nsh_parse saves for a command: the position after its last quoted string. */
  function PieceOffset(line: string, working: nat, e: nat): nat
    requires working <= e < |line|
    decreases e - working
  {
    var q := NextSeparator(line, working);
    if q < e then
      var t := NextQuote(line, q + 1);
      if t < e then PieceOffset(line, t + 1, e) else working
    else
      working
  }

  /** The piece from `start` ends at e, and nsh_parse saves offset `loffs` for it. */
  predicate EndsAt(line: string, start: nat, working: nat, e: nat, loffs: nat)
    requires start <= working <= e < |line|
  {
    var s := Scan(line, start, working);
    if EndsLine(line[e]) then
      s == Split([Piece(line[start..], loffs)], false, loffs)
    else
      var rest := Scan(line, e + 1, e + 1);
      s == Split([Piece(line[start..e], loffs)] + rest.pieces, rest.unmatched, rest.loffs)
  }

  lemma ScanToEnd(line: string, start: nat, working: nat, e: nat)
    requires start <= working <= e < |line| && NextSeparator(line, working) == e
    requires line[e] == ';' || EndsLine(line[e])
    ensures EndsAt(line, start, working, e, working)
  {
    hide NextSeparator, NextQuote;
  }

  /** Up to the next unquoted terminator at e, a clean stretch is one piece. */
  lemma {:induction false} ScanPiece(line: string, start: nat, working: nat, e: nat)
    requires start <= working <= e < |line| && Clean(line, working, e, false)
    requires line[e] == ';' || EndsLine(line[e])
    ensures EndsAt(line, start, working, e, PieceOffset(line, working, e))
    decreases e - working
  {
    hide Scan, NextSeparator, NextQuote;
    var q := NextSeparator(line, working);
    if q < e {
      CleanSkip(line, working, q, e, false);
      var t := NextQuote(line, q + 1);
      QuoteCloses(line, q + 1, t, e);
      ScanOverQuotes(line, start, working, q, t);
      ScanPiece(line, start, t + 1, e);
    } else {
      ScanToEnd(line, start, working, e);
    }
  }

  lemma QuoteCloses(line: string, i: nat, t: nat, e: nat)
    requires i <= e < |line| && t == NextQuote(line, i) && Clean(line, i, e, true)
    ensures t < e && Clean(line, t + 1, e, false)
  {
    if t >= e {
      CleanSkip(line, i, e, e, true);
    } else {
      CleanSkip(line, i, t, e, true);
    }
  }

  /** The saved offset is where the command begins exactly if the command has no double quote. */
  lemma OffsetIsStartIffNoQuote(line: string, start: nat, e: nat)
    requires start <= e < |line| && Clean(line, start, e, false)
    requires line[e] == ';' || EndsLine(line[e])
    ensures PieceOffset(line, start, e) == start <==> '"' !in line[start..e]
  {
    hide NextSeparator, NextQuote, Clean;
    var q := NextSeparator(line, start);
    if q < e {
      CleanSkip(line, start, q, e, false);
      CleanSeparator(line, q, e);
      assert line[start..e][q - start] == '"';
      var t := NextQuote(line, q + 1);
      QuoteCloses(line, q + 1, t, e);
      PieceOffsetGrows(line, t + 1, e);
    } else {
      NoQuoteIn(line, start, e);
    }
  }

  /** For the loop head `while test "a"`, the offset saved is that of its newline, so a jump back
      does not come to the head again. */
  lemma QuotedHeadExample()
    ensures var line := "while test \"a\"\n";
            |line| == 15 && line[14] == '\n' && PieceOffset(line, 0, 14) == 14
  {
    var line := "while test \"a\"\n";
    assert line[11] == '"' && line[13] == '"' && line[12] == 'a' && line[14] == '\n';
    assert NextSeparator(line, 0) == 11;
    assert NextQuote(line, 12) == 13;
    assert NextSeparator(line, 14) == 14;
    assert PieceOffset(line, 14, 14) == 14;
  }

  lemma CleanSeparator(line: string, q: nat, e: nat)
    requires q < e <= |line| && Clean(line, q, e, false) && Separator(line[q])
    ensures line[q] == '"' && Clean(line, q + 1, e, true)
  {
  }

  lemma NoQuoteIn(line: string, start: nat, e: nat)
    requires start <= e <= |line| && forall k | start <= k < e :: !Separator(line[k])
    ensures '"' !in line[start..e]
  {
  }

  lemma {:induction false} PieceOffsetGrows(line: string, working: nat, e: nat)
    requires working <= e < |line|
    ensures working <= PieceOffset(line, working, e)
    decreases e - working
  {
    var q := NextSeparator(line, working);
    if q < e {
      var t := NextQuote(line, q + 1);
      if t < e {
        PieceOffsetGrows(line, t + 1, e);
      }
    }
  }

  // ----- Well laid out scripts -----

  /** What nsh_parse hands on after the text of a command: nothing, or all the rest of the line. */
  function Tail(s: Source): string {
    if s.last then s.comment + "\n" else ""
  }

  /** A comment comes last on its line, begins with '#' and has no newline. */
  predicate GoodComment(s: Source) {
    s.comment != "" ==> s.last && s.comment[0] == '#' && forall c | c in s.comment :: c != '\n' && c != '\0'
  }

  /** The text of a command is one piece of a line, and NSH reads it as its words wherever it
      stands. */
  ghost predicate GoodText(sh: Shell, s: Source) {
    && Clean(s.text, 0, |s.text|, false)
    && GoodComment(s)
    && forall h: History, f: bool :: sh.lex(s.text + Tail(s), h, f) == s.words
  }

  /** In addition, a loop head has no double quote. */
  ghost predicate GoodSource(sh: Shell, s: Source) {
    GoodText(sh, s) && (IsLoopHead(s.words) ==> '"' !in s.text)
  }

  /** The file ends with a newline, and its lines fit the line buffer. */
  ghost predicate WellLaid(sh: Shell, src: seq<Source>, limit: nat) {
    && limit <= 0x1_0000
    && (src != [] ==> src[|src| - 1].last)
    && (forall i | 0 <= i < |src| :: GoodSource(sh, src[i]))
    && (forall i | 0 <= i < |src| :: Off(src, NextLine(Items(src), i)) - Off(src, i) < limit)
  }

  /** The text of the line from command i up to command j. */
  function LineText(src: seq<Source>, i: nat, j: nat): string
    requires i <= j <= |src|
  {
    OffMonotone(src, i, j);
    OffMonotone(src, j, |src|);
    FileLength(src);
    Render(src)[Off(src, i)..Off(src, j)]
  }

  lemma {:induction false} ReadLineStops(file: string, pos: nat, e: nat, limit: nat)
    requires pos <= e < |file| && file[e] == '\n' && e + 1 - pos < limit
    requires forall k | pos <= k < e :: file[k] != '\n'
    ensures ReadLine(file, pos, limit) == file[pos..e + 1]
    decreases e - pos
  {
    hide ReadLine;
    ReadLineUnfolds(file, pos, limit);
    if pos < e {
      ReadLineStops(file, pos + 1, e, limit - 1);
      assert [file[pos]] + file[pos + 1..e + 1] == file[pos..e + 1];
    } else {
      assert [file[pos]] + "" == file[pos..e + 1];
    }
  }

  lemma WrittenAt(s: Source, k: nat)
    requires k < |Written(s)| && GoodComment(s)
    ensures |s.text| < |Written(s)|
    ensures if k < |s.text| then Written(s)[k] == s.text[k]
            else if k < |Written(s)| - 1 then Written(s)[k] != '\n' && Written(s)[k] != '\0'
            else Written(s)[k] == Terminator(s)
  {
    if |s.text| <= k < |Written(s)| - 1 {
      var c := s.comment[k - |s.text|];
      assert Written(s)[k] == c && c in s.comment;
    }
  }

  /** The bytes of command i: no newline and no NUL, then its terminator. */
  lemma CommandIsClean(sh: Shell, src: seq<Source>, i: nat, x: nat)
    requires i < |src| && GoodSource(sh, src[i]) && Off(src, i) <= x < Off(src, i + 1)
    ensures x < |Render(src)| && Render(src)[x] != '\0'
    ensures Render(src)[x] == '\n' <==> src[i].last && x == Off(src, i + 1) - 1
  {
    hide Render, Off, Written;
    FileAt(src, i);
    var p, written := Off(src, i), Written(src[i]);
    assert Render(src)[x] == Render(src)[p..Off(src, i + 1)][x - p] == written[x - p];
    WrittenAt(src[i], x - p);
    if x - p < |src[i].text| {
      CleanNoNewline(src[i].text, 0, |src[i].text|, false, x - p);
    }
  }

  /** Within a line there is no newline and no NUL before its last character. */
  lemma {:induction false} LineIsClean(sh: Shell, src: seq<Source>, limit: nat, i: nat, j: nat, x: nat)
    requires WellLaid(sh, src, limit) && i < j <= |src| && j == NextLine(Items(src), i)
    requires Off(src, i) <= x < Off(src, j)
    ensures x < |Render(src)| && Render(src)[x] != '\0'
    ensures Render(src)[x] == '\n' <==> x == Off(src, j) - 1
    decreases j - i
  {
    hide Render, Off, GoodSource;
    assert GoodSource(sh, src[i]);
    OffMonotone(src, i + 1, j);
    if x < Off(src, i + 1) {
      CommandIsClean(sh, src, i, x);
      if i + 1 < j {
        assert !src[i].last;
        OffMonotone(src, i + 1, j);
      } else {
        assert src[i].last;
      }
    } else {
      LineIsClean(sh, src, limit, i + 1, j, x);
    }
  }

  lemma LineFits(sh: Shell, src: seq<Source>, limit: nat, i: nat)
    requires WellLaid(sh, src, limit) && i < |src|
    ensures Off(src, NextLine(Items(src), i)) - Off(src, i) < limit <= 0x1_0000
  {
  }

  /** From command i, nsh_script reads exactly the rest of the line that holds it. */
  lemma LineIsRead(sh: Shell, src: seq<Source>, limit: nat, i: nat)
    requires WellLaid(sh, src, limit) && i < |src|
    ensures var j := NextLine(Items(src), i);
            && Off(src, i) < |Render(src)|
            && ReadLine(Render(src), Off(src, i), limit) == LineText(src, i, j)
            && CString(LineText(src, i, j)) == LineText(src, i, j)
            && |LineText(src, i, j)| == Off(src, j) - Off(src, i) < limit
  {
    hide Off, Render, NextLine, WellLaid, ReadLine;
    var file := Render(src);
    var j := NextLine(Items(src), i);
    LineFits(sh, src, limit, i);
    OffMonotone(src, i, j);
    OffMonotone(src, j, |src|);
    FileLength(src);
    forall x | Off(src, i) <= x < Off(src, j)
      ensures file[x] != '\0' && (file[x] == '\n' <==> x == Off(src, j) - 1)
    {
      LineIsClean(sh, src, limit, i, j, x);
    }
    ReadLineStops(file, Off(src, i), Off(src, j) - 1, limit);
    NoNul(LineText(src, i, j));
  }
}
