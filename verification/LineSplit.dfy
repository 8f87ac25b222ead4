/** Splitting a line into commands: semicolons separate commands, double quotes protect them,
    and a '#' or newline ends the line. */
module LineSplit {

  /** A command as nsh_parse hands it on, and the offset `np_loffs` it saved for it. */
  datatype Piece = Piece(text: string, loffs: nat)

  /** `unmatched` means that the line ended inside double quotes; the last command is not
      handed on then, and `loffs` is what `np_loffs` was left at. */
  datatype Split = Split(pieces: seq<Piece>, unmatched: bool, loffs: nat)

  predicate Separator(c: char) {
    c == '"' || c == '#' || c == ';' || c == '\n'
  }

  predicate EndsLine(c: char) {
    c == '#' || c == '\n'
  }

  /** strcspn(): the first separator at or after i, or the end of the line. */
  function NextSeparator(line: string, i: nat): (q: nat)
    requires i <= |line|
    ensures i <= q <= |line|
    ensures forall k | i <= k < q :: !Separator(line[k])
    ensures q < |line| ==> Separator(line[q])
    decreases |line| - i
  {
    if i == |line| || Separator(line[i]) then i else NextSeparator(line, i + 1)
  }

  /** strchr() for the closing quote: its position, or the end of the line. */
  function NextQuote(line: string, i: nat): (q: nat)
    requires i <= |line|
    ensures i <= q <= |line|
    ensures forall k | i <= k < q :: line[k] != '"'
    ensures q < |line| ==> line[q] == '"'
    decreases |line| - i
  {
    if i == |line| || line[i] == '"' then i else NextQuote(line, i + 1)
  }

  /** The loop of nsh_parse: `start` is where the current command begins, `working` is where
      the search for its end goes on. */
  function Scan(line: string, start: nat, working: nat): Split
    requires start <= working <= |line|
    decreases |line| - working
  {
    var q := NextSeparator(line, working);
    if q == |line| || EndsLine(line[q]) then
      Split([Piece(line[start..], working)], false, working)
    else if line[q] == ';' then
      var rest := Scan(line, q + 1, q + 1);
      Split([Piece(line[start..q], working)] + rest.pieces, rest.unmatched, rest.loffs)
    else
      var t := NextQuote(line, q + 1);
      if t == |line| then Split([], true, working) else Scan(line, start, t + 1)
  }

  lemma ScanOverQuotes(line: string, start: nat, working: nat, q: nat, t: nat)
    requires start <= working <= q < |line| && q == NextSeparator(line, working) && line[q] == '"'
    requires t == NextQuote(line, q + 1) && t < |line|
    ensures Scan(line, start, working) == Scan(line, start, t + 1)
  {
    hide NextSeparator, NextQuote;
  }

  lemma ScanUnclosed(line: string, start: nat, working: nat, q: nat)
    requires start <= working <= q < |line| && q == NextSeparator(line, working) && line[q] == '"'
    requires NextQuote(line, q + 1) == |line|
    ensures Scan(line, start, working) == Split([], true, working)
  {
    hide NextSeparator, NextQuote;
  }

  // ----- The same, character by character -----

  /** All pieces of a line cut at its unquoted semicolons, the last one being everything from
      the first unquoted '#' or newline on; `open` means that quotes were still open. */
  datatype Cuts = Cuts(pieces: seq<string>, open: bool)

  function Cut(s: string, quoted: bool): (r: Cuts)
    ensures r.pieces != []
  {
    if s == "" then
      Cuts([""], quoted)
    else if !quoted && EndsLine(s[0]) then
      Cuts([s], false)
    else if !quoted && s[0] == ';' then
      var r := Cut(s[1..], false);
      Cuts([""] + r.pieces, r.open)
    else
      var r := Cut(s[1..], if s[0] == '"' then !quoted else quoted);
      Cuts([[s[0]] + r.pieces[0]] + r.pieces[1..], r.open)
  }

  function Join(pieces: seq<string>): string
    requires pieces != []
  {
    if |pieces| == 1 then pieces[0] else pieces[0] + ";" + Join(pieces[1..])
  }

  /** Put text in front of the first piece. */
  function Prepend(text: string, c: Cuts): Cuts
    requires c.pieces != []
  {
    Cuts([text + c.pieces[0]] + c.pieces[1..], c.open)
  }

  function Texts(pieces: seq<Piece>): (ts: seq<string>)
    ensures |ts| == |pieces|
    ensures forall i | 0 <= i < |ts| :: ts[i] == pieces[i].text
  {
    seq(|pieces|, i requires 0 <= i < |pieces| => pieces[i].text)
  }

  /** What the loop of nsh_parse hands on, said in terms of the cuts of the line. */
  predicate Matches(s: Split, c: Cuts) {
    && c.pieces != []
    && s.unmatched == c.open
    && Texts(s.pieces) == if c.open then c.pieces[..|c.pieces| - 1] else c.pieces
  }

  lemma PrependTwice(a: string, b: string, c: Cuts)
    requires c.pieces != []
    ensures Prepend(a, Prepend(b, c)) == Prepend(a + b, c)
  {
    assert a + (b + c.pieces[0]) == (a + b) + c.pieces[0];
    assert ([b + c.pieces[0]] + c.pieces[1..])[1..] == c.pieces[1..];
  }

  lemma PrependNothing(c: Cuts)
    requires c.pieces != []
    ensures Prepend("", c) == c
  {
    assert "" + c.pieces[0] == c.pieces[0];
  }

  /** One character that is neither a separator at this point nor the end. */
  lemma CutChar(line: string, i: nat, quoted: bool)
    requires i < |line| && (quoted || line[i] == '"' || !Separator(line[i]))
    ensures Cut(line[i..], quoted) ==
            Prepend(line[i..i + 1], Cut(line[i + 1..], if line[i] == '"' then !quoted else quoted))
  {
    assert line[i..][1..] == line[i + 1..];
    assert line[i..i + 1] == [line[i..][0]];
  }

  lemma CutSemicolon(line: string, i: nat)
    requires i < |line| && line[i] == ';'
    ensures var r := Cut(line[i + 1..], false);
            Cut(line[i..], false) == Cuts([""] + r.pieces, r.open)
  {
    assert line[i..][1..] == line[i + 1..];
  }

  lemma {:induction false} CutSkipsText(line: string, i: nat, q: nat, quoted: bool)
    requires i <= q <= |line|
    requires forall k | i <= k < q :: line[k] != '"' && (quoted || !Separator(line[k]))
    ensures Cut(line[i..], quoted) == Prepend(line[i..q], Cut(line[q..], quoted))
    decreases q - i
  {
    hide Cut, Prepend;
    if i < q {
      CutChar(line, i, quoted);
      CutSkipsText(line, i + 1, q, quoted);
      PrependTwice(line[i..i + 1], line[i + 1..q], Cut(line[q..], quoted));
      assert line[i..i + 1] + line[i + 1..q] == line[i..q];
    } else {
      PrependNothing(Cut(line[q..], quoted));
      assert line[i..q] == "";
    }
  }

  /** The piece being collected starts at `start`; what is still to be cut starts at `working`. */
  lemma {:induction false} ScanIsCut(line: string, start: nat, working: nat)
    requires start <= working <= |line|
    ensures Matches(Scan(line, start, working), Prepend(line[start..working], Cut(line[working..], false)))
    decreases |line| - working, 1
  {
    hide Cut, Prepend, Scan;
    var q := NextSeparator(line, working);
    CutSkipsText(line, working, q, false);
    PrependTwice(line[start..working], line[working..q], Cut(line[q..], false));
    assert line[start..working] + line[working..q] == line[start..q];
    if q == |line| || EndsLine(line[q]) {
      ScanLast(line, start, working, q);
    } else if line[q] == ';' {
      ScanIsCut(line, q + 1, q + 1);
      ScanSemicolon(line, start, working, q);
    } else {
      ScanQuoted(line, start, working, q);
    }
  }

  lemma ScanLast(line: string, start: nat, working: nat, q: nat)
    requires start <= working <= |line| && q == NextSeparator(line, working)
    requires q == |line| || EndsLine(line[q])
    ensures Matches(Scan(line, start, working), Prepend(line[start..q], Cut(line[q..], false)))
  {
    assert Cut(line[q..], false) == Cuts([line[q..]], false);
    assert line[start..q] + line[q..] == line[start..];
  }

  lemma ScanSemicolon(line: string, start: nat, working: nat, q: nat)
    requires start <= working <= q < |line| && q == NextSeparator(line, working) && line[q] == ';'
    requires Matches(Scan(line, q + 1, q + 1), Prepend(line[q + 1..q + 1], Cut(line[q + 1..], false)))
    ensures Matches(Scan(line, start, working), Prepend(line[start..q], Cut(line[q..], false)))
  {
    hide Cut, NextSeparator;
    CutSemicolon(line, q);
    var rest := Scan(line, q + 1, q + 1);
    var tail := Cut(line[q + 1..], false);
    assert line[q + 1..q + 1] == "";
    PrependNothing(tail);
    assert Scan(line, start, working).pieces == [Piece(line[start..q], working)] + rest.pieces;
    MatchesAnother(Piece(line[start..q], working), rest, tail, Scan(line, start, working), Cut(line[q..], false));
  }

  lemma MatchesAnother(piece: Piece, rest: Split, tail: Cuts, s: Split, c: Cuts)
    requires Matches(rest, tail)
    requires s == Split([piece] + rest.pieces, rest.unmatched, rest.loffs)
    requires c == Cuts([""] + tail.pieces, tail.open)
    ensures Matches(s, Prepend(piece.text, c))
  {
    assert piece.text + "" == piece.text;
    assert Prepend(piece.text, c).pieces == [piece.text] + tail.pieces;
    assert Texts(s.pieces) == [piece.text] + Texts(rest.pieces);
  }

  lemma {:induction false} ScanQuoted(line: string, start: nat, working: nat, q: nat)
    requires start <= working <= q < |line| && q == NextSeparator(line, working) && line[q] == '"'
    ensures Matches(Scan(line, start, working), Prepend(line[start..q], Cut(line[q..], false)))
    decreases |line| - working, 0
  {
    hide Prepend, Matches, Cut;
    var t := NextQuote(line, q + 1);
    QuotedStretch(line, start, q, t);
    if t == |line| {
      ScanOpen(line, start, working, q, t);
    } else {
      ScanIsCut(line, start, t + 1);
    }
  }

  /** From an opening quote at q to the closing quote at t. */
  lemma QuotedStretch(line: string, start: nat, q: nat, t: nat)
    requires start <= q < |line| && line[q] == '"' && q < t <= |line| && t == NextQuote(line, q + 1)
    ensures Prepend(line[start..q], Cut(line[q..], false)) == Prepend(line[start..t], Cut(line[t..], true))
    ensures t < |line| ==>
              Prepend(line[start..q], Cut(line[q..], false)) == Prepend(line[start..t + 1], Cut(line[t + 1..], false))
  {
    hide Cut, Prepend;
    CutChar(line, q, false);
    CutSkipsText(line, q + 1, t, true);
    PrependTwice(line[q..q + 1], line[q + 1..t], Cut(line[t..], true));
    assert line[q..q + 1] + line[q + 1..t] == line[q..t];
    PrependTwice(line[start..q], line[q..t], Cut(line[t..], true));
    assert line[start..q] + line[q..t] == line[start..t];
    if t < |line| {
      CutChar(line, t, true);
      PrependTwice(line[start..t], line[t..t + 1], Cut(line[t + 1..], false));
      assert line[start..t] + line[t..t + 1] == line[start..t + 1];
    }
  }

  lemma ScanOpen(line: string, start: nat, working: nat, q: nat, t: nat)
    requires start <= working <= q < |line| && q == NextSeparator(line, working) && line[q] == '"'
    requires t == NextQuote(line, q + 1) == |line|
    ensures Matches(Scan(line, start, working), Prepend(line[start..t], Cut(line[t..], true)))
  {
    assert line[t..] == "";
  }

  /** On every line, nsh_parse hands on exactly the pieces between unquoted semicolons, all of
      them if the quotes of the line are balanced and all but the last one if not. */
  lemma LineIsCut(line: string)
    ensures Matches(Scan(line, 0, 0), Cut(line, false))
  {
    hide Cut, Scan;
    ScanIsCut(line, 0, 0);
    assert line[0..] == line;
    PrependNothing(Cut(line, false));
    assert line[0..0] == "";
  }

  lemma {:induction false} CutJoins(s: string, quoted: bool)
    ensures Join(Cut(s, quoted).pieces) == s
    decreases |s|
  {
    if s != "" && !(!quoted && EndsLine(s[0])) {
      if !quoted && s[0] == ';' {
        CutJoins(s[1..], false);
        assert ([""] + Cut(s[1..], false).pieces)[1..] == Cut(s[1..], false).pieces;
      } else {
        var quoted' := if s[0] == '"' then !quoted else quoted;
        CutJoins(s[1..], quoted');
        var r := Cut(s[1..], quoted').pieces;
        JoinFirst([s[0]], r);
      }
    }
  }

  lemma JoinFirst(text: string, pieces: seq<string>)
    requires pieces != []
    ensures Join([text + pieces[0]] + pieces[1..]) == text + Join(pieces)
  {
    hide Join;
    var longer := [text + pieces[0]] + pieces[1..];
    JoinUnfolds(longer);
    JoinUnfolds(pieces);
    if |pieces| > 1 {
      var tail := Join(pieces[1..]);
      assert longer[1..] == pieces[1..];
      assert (text + pieces[0]) + ";" + tail == text + (pieces[0] + ";" + tail);
    }
  }

  lemma JoinUnfolds(pieces: seq<string>)
    requires pieces != []
    ensures Join(pieces) == if |pieces| == 1 then pieces[0] else pieces[0] + ";" + Join(pieces[1..])
  {
  }

  /** Nothing is lost: if the quotes of a line are balanced, its pieces rejoined with
      semicolons are the line. */
  lemma PiecesRejoin(line: string)
    requires !Scan(line, 0, 0).unmatched
    ensures Scan(line, 0, 0).pieces != []
    ensures Join(Texts(Scan(line, 0, 0).pieces)) == line
  {
    LineIsCut(line);
    CutJoins(line, false);
  }

  function Quotes(s: string): nat {
    if s == "" then 0 else (if s[0] == '"' then 1 else 0) + Quotes(s[1..])
  }

  /** On a line without '#' and newline, the quotes are unmatched exactly if their number is odd. */
  lemma {:induction false} OpenIffOdd(s: string, quoted: bool)
    requires forall c | c in s :: !EndsLine(c)
    ensures Cut(s, quoted).open <==> (Quotes(s) % 2 == 1) != quoted
    decreases |s|
  {
    if s != "" {
      assert forall c | c in s[1..] :: c in s;
      OpenIffOdd(s[1..], if s[0] == '"' then !quoted else quoted);
      OpenIffOdd(s[1..], quoted);
    }
  }
}
