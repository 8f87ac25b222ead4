/** Cutting a command into arguments, printing arguments, and splitting the value of a variable
    into arguments; without back-slash quoting and without back-quoted commands. */
module Arguments {
  import opened CStrings

  predicate IsSeparator(c: char) {
    c == ' ' || c == '\t' || c == '\n'
  }

  function SkipSeparators(s: string, i: nat): (q: nat)
    requires i <= |s|
    ensures i <= q <= |s|
    ensures forall k | i <= k < q :: IsSeparator(s[k])
    ensures q < |s| ==> !IsSeparator(s[q])
    decreases |s| - i
  {
    if i == |s| || !IsSeparator(s[i]) then i else SkipSeparators(s, i + 1)
  }

  predicate Ends(c: char, quoted: bool) {
    if quoted then c == '"' else IsSeparator(c)
  }

  /** The end of an argument: a closing quote, or a separator, or the end of the string. */
  function FindEnd(s: string, i: nat, quoted: bool): (q: nat)
    requires i <= |s|
    ensures i <= q <= |s|
    ensures forall k | i <= k < q :: !Ends(s[k], quoted)
    ensures q < |s| ==> Ends(s[q], quoted)
    decreases |s| - i
  {
    if i == |s| || Ends(s[i], quoted) then i else FindEnd(s, i + 1, quoted)
  }

  /** The next argument, before expansion, and where the search for the one after it starts. */
  datatype Argument = NoMore | Argument(text: string, next: nat)

  function NextArgument(s: string, i: nat): (r: Argument)
    requires i <= |s|
    ensures r.Argument? ==> i < r.next <= |s|
  {
    var b := SkipSeparators(s, i);
    if b == |s| || s[b] == '#' then
      NoMore
    else if s[b] == '>' then
      if b + 1 < |s| && s[b + 1] == '>' then Argument(">>", b + 2) else Argument(">", b + 1)
    else
      var quoted := s[b] == '"';
      var start := if quoted then b + 1 else b;
      var e := FindEnd(s, start, quoted);
      Argument(s[start..e], if e < |s| then e + 1 else e)
  }

  /** All arguments from i on. */
  function ArgumentsFrom(s: string, i: nat): seq<string>
    requires i <= |s|
    decreases |s| - i
  {
    match NextArgument(s, i)
    case NoMore => []
    case Argument(text, next) => [text] + ArgumentsFrom(s, next)
  }

  // ----- The code -----

  /** From i on, the buffer still holds the C string s. */
  ghost predicate Rest(buf: seq<char>, s: string, i: nat) {
    && i <= |s| < |buf| && buf[|s|] == '\0'
    && forall k | i <= k < |s| :: buf[k] == s[k] && s[k] != '\0'
  }

  method SkipInBuffer(buf: array<char>, i: nat, ghost s: string) returns (q: nat)
    requires Rest(buf[..], s, i)
    ensures q == SkipSeparators(s, i)
  {
    q := i;
    while buf[q] != '\0' && IsSeparator(buf[q])
      invariant i <= q <= |s|
      invariant SkipSeparators(s, i) == SkipSeparators(s, q)
      decreases |s| - q
    {
      q := q + 1;
    }
  }

  method EndInBuffer(buf: array<char>, i: nat, quoted: bool, ghost s: string) returns (q: nat)
    requires Rest(buf[..], s, i)
    ensures q == FindEnd(s, i, quoted)
  {
    q := i;
    while buf[q] != '\0' && !Ends(buf[q], quoted)
      invariant i <= q <= |s|
      invariant FindEnd(s, i, quoted) == FindEnd(s, q, quoted)
      decreases |s| - q
    {
      q := q + 1;
    }
  }

  /** nsh_argument: find the next argument in place, ending it with a NUL.  Every argument
      found strictly advances `next`, and what comes after it is left as it was. */
  method GetArgument(buf: array<char>, saveptr: nat, ghost s: string) returns (found: bool, text: string, next: nat)
    requires Rest(buf[..], s, saveptr)
    modifies buf
    ensures found == NextArgument(s, saveptr).Argument?
    ensures found ==> NextArgument(s, saveptr) == Argument(text, next) && saveptr < next
    ensures found ==> Rest(buf[..], s, next)
  {
    hide CString, SkipSeparators, FindEnd;
    found, text, next := false, "", saveptr;
    var b := SkipInBuffer(buf, saveptr, s);
    if buf[b] == '\0' || buf[b] == '#' {
      return;
    }
    found := true;
    if buf[b] == '>' {
      if buf[b + 1] == '>' {
        text, next := ">>", b + 2;
      } else {
        text, next := ">", b + 1;
      }
    } else {
      var quoted := buf[b] == '"';
      var start := if quoted then b + 1 else b;
      var e := EndInBuffer(buf, start, quoted, s);
      next := e;
      if buf[e] != '\0' {
        buf[e] := '\0';
        next := e + 1;
      }
      TextAt(buf[..], start, s, e);
      text := CString(buf[start..]);
    }
  }

  /** Repeated calls of nsh_argument on one command. */
  method GetArguments(buf: array<char>) returns (args: seq<string>)
    requires '\0' in buf[..]
    modifies buf
    ensures args == ArgumentsFrom(CString(old(buf[..])), 0)
  {
    hide NextArgument, CString;
    ghost var s := CString(buf[..]);
    args := [];
    var saveptr := 0;
    while true
      invariant Rest(buf[..], s, saveptr)
      invariant args + ArgumentsFrom(s, saveptr) == ArgumentsFrom(s, 0)
      decreases |s| - saveptr
    {
      var found, text, next := GetArgument(buf, saveptr, s);
      if !found {
        return;
      }
      assert args + ([text] + ArgumentsFrom(s, next)) == (args + [text]) + ArgumentsFrom(s, next);
      args := args + [text];
      saveptr := next;
    }
  }

  // ----- Printing arguments and reading them back -----

  function Spaced(args: seq<string>): string {
    if args == [] then "" else if |args| == 1 then args[0] else args[0] + " " + Spaced(args[1..])
  }

  /** A first argument that begins with "-n" asks for no newline and is not printed. */
  predicate NoNewline(args: seq<string>) {
    args != [] && |args[0]| >= 2 && args[0][..2] == "-n"
  }

  function Operands(args: seq<string>): seq<string> {
    if NoNewline(args) then args[1..] else args
  }

  function EchoOutput(args: seq<string>): string {
    if NoNewline(args) then Spaced(args[1..]) else Spaced(args) + "\n"
  }

  /** cmd_echo, on the arguments after the command name. */
  method Echo(args: seq<string>) returns (output: string)
    ensures output == EchoOutput(args)
  {
    hide Spaced, Remaining;
    output := "";
    var s := if NoNewline(args) then 1 else 0;
    var i := s;
    RemainingEdges(args, s);
    while i < |args|
      invariant s <= i <= |args|
      invariant output + Remaining(args, s, i) == Spaced(args[s..])
    {
      RemainingUnfolds(args, s, i);
      ghost var done := output;
      if i != s {
        output := output + " ";
      }
      output := output + args[i];
      i := i + 1;
      assert done + ((if i != s + 1 then " " else "") + args[i - 1] + Remaining(args, s, i)) ==
             output + Remaining(args, s, i);
    }
    RemainingEdges(args, s);
    assert args[0..] == args;
    if s == 0 {
      output := output + "\n";
    }
  }

  /** What is still to be printed once the arguments from s up to i have been printed. */
  function Remaining(args: seq<string>, s: nat, i: nat): string
    requires i <= |args|
  {
    (if s != i && i < |args| then " " else "") + Spaced(args[i..])
  }

  lemma RemainingEdges(args: seq<string>, s: nat)
    requires s <= |args|
    ensures Remaining(args, s, s) == Spaced(args[s..]) && Remaining(args, s, |args|) == ""
  {
  }

  lemma RemainingUnfolds(args: seq<string>, s: nat, i: nat)
    requires s <= i < |args|
    ensures Remaining(args, s, i) == (if i != s then " " else "") + args[i] + Remaining(args, s, i + 1)
  {
    SpacedUnfolds(args[i..]);
    assert args[i..][1..] == args[i + 1..] && args[i..][0] == args[i];
  }

  lemma SpacedUnfolds(args: seq<string>)
    requires args != []
    ensures Spaced(args) == args[0] + (if |args| > 1 then " " else "") + Spaced(args[1..])
  {
  }

  function Lengths(args: seq<string>): nat {
    if args == [] then 0 else |args[0]| + Lengths(args[1..])
  }

  lemma {:induction false} SpacedLength(args: seq<string>)
    ensures |Spaced(args)| == Lengths(args) + if args == [] then 0 else |args| - 1
  {
    if args != [] {
      SpacedLength(args[1..]);
    }
  }

  /** A first argument that begins with -n, and only that, keeps the newline from being printed and is
      not printed itself; between the others there is one character. */
  lemma EchoMeans(more: string, args: seq<string>)
    ensures EchoOutput(["-n" + more] + args) == Spaced(args)
    ensures args == [] || !("-n" <= args[0]) ==> EchoOutput(args) == Spaced(args) + "\n"
    ensures |Spaced(args)| == Lengths(args) + if args == [] then 0 else |args| - 1
  {
    var all := ["-n" + more] + args;
    assert all[0][..2] == "-n" && all[1..] == args;
    SpacedLength(args);
  }

  /** An argument that is read back as it is printed. */
  predicate Printable(arg: string) {
    && arg != ""
    && (forall c | c in arg :: !IsSeparator(c) && c != '\0')
    && (arg[0] == '>' ==> arg == ">" || arg == ">>")
    && arg[0] != '#' && arg[0] != '"'
  }

  predicate IsRedirection(arg: string) {
    arg == ">" || arg == ">>"
  }

  /** A redirection is an argument of its own, whatever follows it; what follows it is read as if it
      stood alone. */
  lemma RedirectionIsRead(s: string, i: nat)
    requires i < |s| && s[i] == '>'
    ensures var next := if i + 1 < |s| && s[i + 1] == '>' then i + 2 else i + 1;
            ArgumentsFrom(s, i) == [s[i..next]] + ArgumentsFrom(s, next)
  {
    hide FindEnd;
    var next := if i + 1 < |s| && s[i + 1] == '>' then i + 2 else i + 1;
    NothingToSkip(s, i);
    assert s[i..next] == if next == i + 2 then ">>" else ">";
  }

  lemma EndIs(s: string, i: nat, e: nat, quoted: bool)
    requires i <= e <= |s| && (e < |s| ==> Ends(s[e], quoted))
    requires forall k | i <= k < e :: !Ends(s[k], quoted)
    ensures FindEnd(s, i, quoted) == e
  {
  }

  lemma {:induction false} SkipsToSame(s: string, i: nat)
    requires i < |s| && IsSeparator(s[i])
    ensures ArgumentsFrom(s, i) == ArgumentsFrom(s, i + 1)
  {
    hide FindEnd;
    assert SkipSeparators(s, i) == SkipSeparators(s, i + 1);
    assert NextArgument(s, i) == NextArgument(s, i + 1);
  }

  /** Text `rest` may come directly after a bare argument: it is set off by a separator, or the
      argument is a redirection that does not become another one. */
  predicate MayFollow(arg: string, rest: string) {
    rest != "" ==> IsSeparator(rest[0]) || (IsRedirection(arg) && (arg == ">" ==> rest[0] != '>'))
  }

  lemma {:induction false} SkipGap(s: string, i: nat, e: nat)
    requires i <= e <= |s| && forall k | i <= k < e :: IsSeparator(s[k])
    ensures ArgumentsFrom(s, i) == ArgumentsFrom(s, e)
    decreases e - i
  {
    hide ArgumentsFrom;
    if i < e {
      SkipsToSame(s, i);
      SkipGap(s, i + 1, e);
    }
  }

  lemma Dropped(s: string, i: nat, a: string, b: string)
    requires i <= |s| && s[i..] == a + b
    ensures i + |a| <= |s| && s[i..i + |a|] == a && s[i + |a|..] == b
  {
    assert s[i..i + |a|] == s[i..][..|a|];
    assert s[i + |a|..] == s[i..][|a|..];
  }

  lemma NothingToSkip(s: string, i: nat)
    requires i < |s| && !IsSeparator(s[i])
    ensures SkipSeparators(s, i) == i
  {
  }

  /** Text after the last argument: separators, then perhaps a comment. */
  predicate NoWords(tail: string) {
    tail == "" || tail[0] == '#' || (IsSeparator(tail[0]) && NoWords(tail[1..]))
  }

  lemma {:induction false} ReadTail(s: string, i: nat)
    requires i <= |s| && NoWords(s[i..])
    ensures ArgumentsFrom(s, i) == []
    decreases |s| - i
  {
    if i < |s| {
      assert s[i] == s[i..][0];
      if s[i] != '#' {
        assert s[i..][1..] == s[i + 1..];
        ReadTail(s, i + 1);
        SkipsToSame(s, i);
      }
    }
  }

  /** How an argument is written: what separates it from the one before, and whether it stands in
      double quotes. */
  datatype Spelling = Spelling(gap: string, arg: string, quoted: bool)

  function Spell(sp: Spelling): string {
    sp.gap + if sp.quoted then "\"" + sp.arg + "\"" else sp.arg
  }

  function Spelled(sps: seq<Spelling>): string {
    if sps == [] then "" else Spell(sps[0]) + Spelled(sps[1..])
  }

  function Spoken(sps: seq<Spelling>): (args: seq<string>)
    ensures |args| == |sps| && forall i | 0 <= i < |sps| :: args[i] == sps[i].arg
  {
    seq(|sps|, i requires 0 <= i < |sps| => sps[i].arg)
  }

  predicate GoodSpelling(sp: Spelling) {
    (forall c | c in sp.gap :: IsSeparator(c)) && if sp.quoted then '"' !in sp.arg else Printable(sp.arg)
  }

  /** An argument may have no separator before it if it is the first, or follows one in quotes or a
      redirection. */
  predicate GoodSpellings(sps: seq<Spelling>) {
    forall i | 0 <= i < |sps| :: GoodSpelling(sps[i]) && (i > 0 ==> Follows(sps[i - 1], Spell(sps[i])))
  }

  predicate Follows(sp: Spelling, rest: string) {
    sp.quoted || MayFollow(sp.arg, rest)
  }

  /** What follows an argument begins with a separator, if there is anything. */
  predicate SetOff(rest: string) {
    rest != "" ==> IsSeparator(rest[0])
  }

  /** A spelled argument from position i on, then `rest`: it is the next one, and the search for the
      one after it starts where it ends, or behind a separator that follows it. */
  lemma NextSpelling(s: string, i: nat, sp: Spelling, rest: string) returns (next: nat)
    requires i <= |s| && s[i..] == Spell(sp) + rest && GoodSpelling(sp) && Follows(sp, rest)
    ensures var e := i + |Spell(sp)|;
            && e <= next <= |s| && s[e..] == rest && (forall k | e <= k < next :: IsSeparator(s[k]))
            && NextArgument(s, i) == Argument(sp.arg, next)
    ensures SkipSeparators(s, i) == i + |sp.gap| < |s| && s[i + |sp.gap|] == Spell(sp)[|sp.gap|]
  {
    hide SkipSeparators, FindEnd, NextArgument, Printable, MayFollow, Spell;
    var b, e := i + |sp.gap|, i + |Spell(sp)|;
    SpellingAt(s, i, sp, rest);
    TextStarts(sp);
    SkipsTo(s, i, b);
    next := e;
    if sp.quoted {
      NextQuoted(s, i, b, sp.arg);
    } else if IsRedirection(sp.arg) {
      NextRedirection(s, i, b, sp.arg, rest);
    } else {
      next := if e < |s| then e + 1 else e;
      NextBare(s, i, b, sp.arg, rest);
      BareIsSetOff(sp.arg, rest);
    }
  }

  lemma BareIsSetOff(arg: string, rest: string)
    requires MayFollow(arg, rest) && !IsRedirection(arg)
    ensures rest != "" ==> IsSeparator(rest[0])
  {
  }

  /** The characters of a spelled argument, one by one. */
  lemma SpellingAt(s: string, i: nat, sp: Spelling, rest: string)
    requires i <= |s| && s[i..] == Spell(sp) + rest && forall c | c in sp.gap :: IsSeparator(c)
    ensures var b := i + |sp.gap|;
            var e := i + |Spell(sp)|;
            && e == b + |sp.arg| + (if sp.quoted then 2 else 0) && e + |rest| == |s| && s[e..] == rest
            && (forall k | i <= k < b :: IsSeparator(s[k]))
            && (sp.quoted ==> s[b] == '"' && s[e - 1] == '"' && Spell(sp)[|sp.gap|] == '"')
            && (!sp.quoted && sp.arg != "" ==> s[b] == sp.arg[0] == Spell(sp)[|sp.gap|])
            && (forall k | 0 <= k < |sp.arg| :: s[b + (if sp.quoted then 1 else 0) + k] == sp.arg[k])
            && (rest != "" ==> s[e] == rest[0])
  {
    var b, e := i + |sp.gap|, i + |Spell(sp)|;
    Dropped(s, i, Spell(sp), rest);
    assert forall k | i <= k < e :: s[k] == s[i..e][k - i] == Spell(sp)[k - i];
    assert forall k | 0 <= k < |sp.gap| :: sp.gap[k] in sp.gap;
    assert rest != "" ==> s[e] == s[e..][0];
  }

  lemma TextStarts(sp: Spelling)
    requires GoodSpelling(sp)
    ensures !sp.quoted ==> sp.arg != "" && !IsSeparator(sp.arg[0])
  {
  }

  lemma {:induction false} SkipsTo(s: string, i: nat, b: nat)
    requires i <= b < |s| && !IsSeparator(s[b]) && forall k | i <= k < b :: IsSeparator(s[k])
    ensures SkipSeparators(s, i) == b
  {
  }

  lemma NextQuoted(s: string, i: nat, b: nat, arg: string)
    requires i <= b <= |s| && b == SkipSeparators(s, i) && b + |arg| + 2 <= |s| && s[b] == '"' && '"' !in arg
    requires s[b + 1 + |arg|] == '"' && forall k | 0 <= k < |arg| :: s[b + 1 + k] == arg[k]
    ensures NextArgument(s, i) == Argument(arg, b + |arg| + 2)
  {
    hide SkipSeparators, FindEnd;
    var e := b + 1 + |arg|;
    assert s[b + 1..e] == arg;
    forall k | b + 1 <= k < e
      ensures s[k] != '"'
    {
      assert s[k] == arg[k - b - 1];
    }
    EndIs(s, b + 1, e, true);
  }

  lemma NextRedirection(s: string, i: nat, b: nat, arg: string, rest: string)
    requires i <= b <= |s| && b == SkipSeparators(s, i) && IsRedirection(arg) && b + |arg| + |rest| == |s|
    requires (forall k | 0 <= k < |arg| :: s[b + k] == arg[k]) && (rest != "" ==> s[b + |arg|] == rest[0])
    requires MayFollow(arg, rest)
    ensures NextArgument(s, i) == Argument(arg, b + |arg|)
  {
    hide SkipSeparators, FindEnd;
    assert s[b + 0] == arg[0] && (|arg| == 2 ==> s[b + 1] == arg[1]);
  }

  lemma NextBare(s: string, i: nat, b: nat, arg: string, rest: string)
    requires i <= b <= |s| && b == SkipSeparators(s, i) && b + |arg| + |rest| == |s|
    requires Printable(arg) && !IsRedirection(arg)
    requires (forall k | 0 <= k < |arg| :: s[b + k] == arg[k]) && (rest != "" ==> s[b + |arg|] == rest[0])
    requires MayFollow(arg, rest)
    ensures var e := b + |arg|;
            NextArgument(s, i) == Argument(arg, if e < |s| then e + 1 else e)
  {
    hide SkipSeparators, FindEnd;
    var e := b + |arg|;
    assert s[b..e] == arg;
    forall k | b <= k < e
      ensures !IsSeparator(s[k])
    {
      assert s[k] == arg[k - b];
    }
    EndIs(s, b, e, false);
  }

  lemma ReadSpelling(s: string, i: nat, sp: Spelling, rest: string)
    requires i <= |s| && s[i..] == Spell(sp) + rest && GoodSpelling(sp) && Follows(sp, rest)
    ensures i + |Spell(sp)| <= |s| && s[i + |Spell(sp)|..] == rest
    ensures ArgumentsFrom(s, i) == [sp.arg] + ArgumentsFrom(s, i + |Spell(sp)|)
  {
    hide NextArgument, SkipSeparators, Follows, GoodSpelling, Spell;
    var next := NextSpelling(s, i, sp, rest);
    SkipGap(s, i + |Spell(sp)|, next);
  }

  lemma SpelledFollows(sps: seq<Spelling>, tail: string)
    requires sps != [] && GoodSpellings(sps) && (|sps| == 1 ==> Follows(sps[0], tail))
    ensures Follows(sps[0], Spelled(sps[1..]) + tail)
  {
    if |sps| > 1 {
      assert sps[1..][0] == sps[1];
      assert GoodSpelling(sps[1]);
      assert Spell(sps[1]) != "" && (Spelled(sps[1..]) + tail)[0] == Spell(sps[1])[0];
    }
  }

  /** From position i on, s is the arguments, spelled in any way, then `tail`. */
  lemma {:induction false} ReadSpelled(s: string, i: nat, sps: seq<Spelling>, tail: string)
    requires i <= |s| && s[i..] == Spelled(sps) + tail && GoodSpellings(sps)
    requires NoWords(tail) && (sps != [] ==> Follows(sps[|sps| - 1], tail))
    ensures ArgumentsFrom(s, i) == Spoken(sps)
    decreases |sps|
  {
    hide ArgumentsFrom, Printable, NoWords, Follows, GoodSpelling, Spell;
    if sps == [] {
      assert s[i..] == tail;
      ReadTail(s, i);
    } else {
      var rest := Spelled(sps[1..]) + tail;
      assert s[i..] == Spell(sps[0]) + rest;
      SpelledFollows(sps, tail);
      ReadSpelling(s, i, sps[0], rest);
      ReadSpelled(s, i + |Spell(sps[0])|, sps[1..], tail);
      assert Spoken(sps) == [sps[0].arg] + Spoken(sps[1..]);
    }
  }

  /** Arguments separated by single spaces. */
  function Singly(args: seq<string>): (sps: seq<Spelling>)
    ensures |sps| == |args|
    ensures forall i | 0 <= i < |args| :: sps[i] == Spelling(if i == 0 then "" else " ", args[i], false)
  {
    seq(|args|, i requires 0 <= i < |args| => Spelling(if i == 0 then "" else " ", args[i], false))
  }

  lemma {:induction false} SpacedIsSpelled(args: seq<string>, k: nat)
    requires k < |args|
    ensures Spelled(Singly(args)[k..]) == (if k == 0 then "" else " ") + Spaced(args[k..])
    decreases |args| - k
  {
    var sps := Singly(args)[k..];
    SpacedUnfolds(args[k..]);
    assert args[k..][1..] == args[k + 1..] && sps[1..] == Singly(args)[k + 1..];
    if k + 1 < |args| {
      SpacedIsSpelled(args, k + 1);
    }
  }

  /** Arguments separated by spaces, then `tail`, are read back. */
  lemma ReadAll(s: string, args: seq<string>, tail: string)
    requires s == Spaced(args) + tail && NoWords(tail) && SetOff(tail)
    requires forall arg | arg in args :: Printable(arg)
    ensures ArgumentsFrom(s, 0) == args
  {
    hide ArgumentsFrom, Printable, NoWords;
    var sps := Singly(args);
    if args != [] {
      SpacedIsSpelled(args, 0);
      assert sps[0..] == sps && args[0..] == args;
    }
    assert s[0..] == Spelled(sps) + tail;
    ReadSpelled(s, 0, sps, tail);
    assert Spoken(sps) == args;
  }

  /** What echo prints is read back as the arguments it printed. */
  lemma EchoRoundTrip(args: seq<string>)
    requires forall arg | arg in Operands(args) :: Printable(arg)
    ensures ArgumentsFrom(EchoOutput(args), 0) == Operands(args)
  {
    var tail := if NoNewline(args) then "" else "\n";
    assert EchoOutput(args) == Spaced(Operands(args)) + tail;
    assert NoWords(tail) by {
      assert tail == "\n" ==> tail[1..] == "";
    }
    ReadAll(EchoOutput(args), Operands(args), tail);
  }

  // ----- The value of a variable as arguments -----

  /** The words of a value: its maximal runs of characters that are not separators. */
  function WordsOf(v: string): (r: seq<string>)
    ensures v != "" && !IsSeparator(v[0]) ==> r != []
    ensures "" !in r
  {
    if v == "" then []
    else if IsSeparator(v[0]) then WordsOf(v[1..])
    else if |v| == 1 || IsSeparator(v[1]) then [v[..1]] + WordsOf(v[1..])
    else
      var r := WordsOf(v[1..]);
      [v[..1] + r[0]] + r[1..]
  }

  /** The loop of nsh_parse_command that turns an expanded argument into several. */
  function SplitFrom(v: string, i: nat): seq<string>
    requires i <= |v|
    decreases |v| - i
  {
    var e := FindEnd(v, i, false);
    if e == |v| then [v[i..]] else [v[i..e]] + SplitFrom(v, SkipSeparators(v, e + 1))
  }

  lemma SplitUnfolds(v: string, i: nat, e: nat)
    requires i <= |v| && e == FindEnd(v, i, false)
    ensures e == |v| ==> SplitFrom(v, i) == [v[i..]]
    ensures e < |v| ==> SplitFrom(v, i) == [v[i..e]] + SplitFrom(v, SkipSeparators(v, e + 1))
  {
  }

  method SplitArgument(buf: array<char>) returns (argv: seq<string>)
    requires '\0' in buf[..]
    modifies buf
    ensures argv == SplitFrom(CString(old(buf[..])), 0)
  {
    hide CString, FindEnd, SkipSeparators, SplitFrom;
    ghost var v := CString(buf[..]);
    argv := [];
    var arg := 0;
    while true
      invariant Rest(buf[..], v, arg)
      invariant argv + SplitFrom(v, arg) == SplitFrom(v, 0)
      decreases |v| - arg
    {
      var pbegin := EndInBuffer(buf, arg, false, v);
      SplitUnfolds(v, arg, pbegin);
      if buf[pbegin] == '\0' {
        TextAt(buf[..], arg, v, |v|);
        assert v[arg..|v|] == v[arg..];
        argv := argv + [CString(buf[arg..])];
        return;
      }
      buf[pbegin] := '\0';
      TextAt(buf[..], arg, v, pbegin);
      var next := SkipInBuffer(buf, pbegin + 1, v);
      assert argv + ([v[arg..pbegin]] + SplitFrom(v, next)) == (argv + [v[arg..pbegin]]) + SplitFrom(v, next);
      argv := argv + [CString(buf[arg..])];
      arg := next;
    }
  }

  // A value without separators at its ends is split into its words.

  lemma {:induction false} WordsSkip(v: string, i: nat, q: nat)
    requires i <= q <= |v| && forall k | i <= k < q :: IsSeparator(v[k])
    ensures WordsOf(v[i..]) == WordsOf(v[q..])
    decreases q - i
  {
    if i < q {
      assert v[i..][1..] == v[i + 1..];
      WordsSkip(v, i + 1, q);
    }
  }

  lemma {:induction false} WordsTake(v: string, i: nat, e: nat)
    requires i < e <= |v| && (e < |v| ==> IsSeparator(v[e]))
    requires forall k | i <= k < e :: !IsSeparator(v[k])
    ensures WordsOf(v[i..]) == [v[i..e]] + WordsOf(v[e..])
    decreases e - i
  {
    assert v[i..][1..] == v[i + 1..];
    assert v[i..][..1] == v[i..i + 1];
    if i + 1 < e {
      WordsTake(v, i + 1, e);
      assert v[i..i + 1] + v[i + 1..e] == v[i..e];
    } else {
      assert |v[i..]| == 1 || IsSeparator(v[i..][1]);
    }
  }

  /** A value from the start of a word on, or from its end, is split into its words, and an empty
      argument if it ends in a separator or there is nothing left. */
  lemma {:induction false} SplitWords(v: string, i: nat)
    requires i <= |v| && (i < |v| ==> !IsSeparator(v[i]))
    ensures SplitFrom(v, i) == WordsOf(v[i..]) + if i == |v| || IsSeparator(v[|v| - 1]) then [""] else []
    decreases |v| - i
  {
    hide WordsOf, SplitFrom;
    var e := FindEnd(v, i, false);
    SplitUnfolds(v, i, e);
    if i == |v| {
      assert v[i..] == "";
      WordsNone();
    } else {
      WordsTake(v, i, e);
      if e < |v| {
        var q := SkipSeparators(v, e + 1);
        WordsSkip(v, e, q);
        SplitWords(v, q);
        var end := if q == |v| || IsSeparator(v[|v| - 1]) then [""] else [];
        assert [v[i..e]] + (WordsOf(v[q..]) + end) == [v[i..e]] + WordsOf(v[q..]) + end;
        assert q == |v| ==> IsSeparator(v[|v| - 1]);
      } else {
        assert v[e..] == "" && v[i..e] == v[i..];
        WordsNone();
      }
    }
  }

  /** What splitting gives for any value: an empty argument if the value is empty or begins with a
      separator, its words, and an empty argument if it ends in a separator. */
  lemma SplitIs(v: string)
    ensures SplitFrom(v, 0) ==
            (if v == "" || IsSeparator(v[0]) then [""] else []) + WordsOf(v)
            + (if v != "" && IsSeparator(v[|v| - 1]) then [""] else [])
  {
    hide WordsOf, SplitFrom, IsSeparator;
    assert v[0..] == v;
    if v == "" {
      SplitWords(v, 0);
      WordsNone();
      assert [""] + [] + [] == [] + [""];
    } else if IsSeparator(v[0]) {
      SplitGap(v);
    } else {
      SplitWords(v, 0);
      assert [] + WordsOf(v) == WordsOf(v);
    }
  }

  lemma SplitGap(v: string)
    requires v != "" && IsSeparator(v[0])
    ensures SplitFrom(v, 0) == [""] + WordsOf(v) + if IsSeparator(v[|v| - 1]) then [""] else []
  {
    hide WordsOf, SplitFrom, FindEnd, SkipSeparators;
    assert v[0..] == v;
    EndIs(v, 0, 0, false);
    SplitUnfolds(v, 0, 0);
    var q := SkipSeparators(v, 1);
    WordsSkip(v, 0, q);
    SplitWords(v, q);
    var end := if IsSeparator(v[|v| - 1]) then [""] else [];
    assert [""] + (WordsOf(v[q..]) + end) == [""] + WordsOf(v[q..]) + end;
  }

  lemma WordsNone()
    ensures WordsOf("") == []
  {
  }

  lemma {:induction false} TrailingSeparatorLeavesEmpty(v: string, i: nat)
    requires i <= |v| && v != "" && IsSeparator(v[|v| - 1])
    ensures "" in SplitFrom(v, i)
    decreases |v| - i
  {
    var e := FindEnd(v, i, false);
    if e < |v| {
      TrailingSeparatorLeavesEmpty(v, SkipSeparators(v, e + 1));
    } else {
      assert i == |v|;
      assert v[i..] == "";
    }
  }

  /** An expanded value contributes exactly its words, in order and with no empty argument,
      if and only if it is not empty and has no separator at either end. */
  lemma SplitIsWordsIff(v: string)
    ensures SplitFrom(v, 0) == WordsOf(v) <==> v != "" && !IsSeparator(v[0]) && !IsSeparator(v[|v| - 1])
  {
    hide SplitFrom, WordsOf;
    SplitIs(v);
  }
}
