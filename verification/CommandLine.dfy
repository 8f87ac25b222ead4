/** The argument vector of a command: cut into arguments, each one expanded, and unquoted
    expansions split into several. */
module CommandLine {
  import opened CStrings
  import opened Arguments
  import Expansion

  /** How the argument that NextArgument finds is written. */
  datatype Kind = Bare | Quoted | Redirection

  function KindAt(s: string, i: nat): Kind
    requires i <= |s|
  {
    var b := SkipSeparators(s, i);
    if b < |s| && s[b] == '>' then Redirection else if b < |s| && s[b] == '"' then Quoted else Bare
  }

  /** nsh_argexpand; an unclosed brace gives the empty string. */
  function ValueOf(t: string, lookup: Expansion.Lookup): string {
    match Expansion.PartsFrom(t, 0)
    case Unmatched => ""
    case Template(parts) => Expansion.Expanded(t, parts, lookup)
  }

  /** What one argument adds to the argument vector. */
  function Contribution(t: string, kind: Kind, lookup: Expansion.Lookup): seq<string> {
    match kind
    case Redirection => [t]
    case Quoted => [ValueOf(t, lookup)]
    case Bare =>
      if Expansion.FirstIsComplete(t) then SplitFrom(ValueOf(t, lookup), 0) else [ValueOf(t, lookup)]
  }

  function ArgvFrom(s: string, i: nat, lookup: Expansion.Lookup): seq<string>
    requires i <= |s|
    decreases |s| - i
  {
    match NextArgument(s, i)
    case NoMore => []
    case Argument(text, next) => Contribution(text, KindAt(s, i), lookup) + ArgvFrom(s, next, lookup)
  }

  /** The name of the command comes first; it is expanded, but never split. */
  function Argv(s: string, lookup: Expansion.Lookup): seq<string> {
    match NextArgument(s, 0)
    case NoMore => []
    case Argument(text, next) =>
      [if KindAt(s, 0) == Redirection then text else ValueOf(text, lookup)] + ArgvFrom(s, next, lookup)
  }

  /** Expand an argument and split it if it is not in quotes and a variable was expanded. */
  method ExpandArgument(text: string, quoted: bool, lookup: Expansion.Lookup) returns (argv: seq<string>)
    requires '\0' !in text && forall name :: '\0' !in lookup(name)
    ensures argv == Contribution(text, if quoted then Quoted else Bare, lookup)
  {
    hide CString, Expansion.PartsFrom, Expansion.Expanded, Expansion.FirstIsComplete;
    var buf := ToBuffer(text);
    var arg, isenvvar, failed := Expansion.ArgExpand(buf, lookup);
    argv := [arg];
    if !quoted && isenvvar {
      ValueIsNulFree(text, lookup);
      var value := ToBuffer(arg);
      argv := SplitArgument(value);
    }
  }

  method ExpandName(text: string, lookup: Expansion.Lookup) returns (name: string)
    requires '\0' !in text
    ensures name == ValueOf(text, lookup)
  {
    hide CString, Expansion.PartsFrom, Expansion.Expanded, Expansion.FirstIsComplete;
    var buf := ToBuffer(text);
    var isenvvar, failed;
    name, isenvvar, failed := Expansion.ArgExpand(buf, lookup);
  }

  lemma {:induction false} ValuesNulFree(parts: seq<Expansion.Part>, lookup: Expansion.Lookup)
    requires '\0' !in Expansion.SourceOf(parts) && forall name :: '\0' !in lookup(name)
    ensures '\0' !in Expansion.Values(parts, lookup, false)
  {
    hide Expansion.SourceOf, Expansion.Values;
    if parts == [] {
      Expansion.ValuesNone(lookup);
    } else {
      var p, rest := parts[0], parts[1..];
      assert parts == [p] + rest;
      Expansion.SourceOne(p, rest);
      Expansion.ValuesOne(p, rest, lookup, false);
      ValuesNulFree(rest, lookup);
      if p.Literal? {
        AfterTickNulFree(p.text);
      }
    }
  }

  lemma {:induction false} AfterTickNulFree(s: string)
    requires '\0' !in s
    ensures '\0' !in Expansion.AfterTick(s)
  {
    TickSuffix(s);
  }

  lemma {:induction false} TickSuffix(s: string)
    ensures forall c | c in Expansion.AfterTick(s) :: c in s
  {
    if s != "" {
      TickSuffix(s[1..]);
    }
  }

  lemma ValueIsNulFree(t: string, lookup: Expansion.Lookup)
    requires '\0' !in t && forall name :: '\0' !in lookup(name)
    ensures '\0' !in ValueOf(t, lookup)
  {
    hide Expansion.PartsFrom, Expansion.Values;
    var r := Expansion.PartsFrom(t, 0);
    if r.Template? {
      Expansion.PartsAreTemplate(t, 0);
      assert t[0..] == t;
      ValuesNulFree(r.parts, lookup);
    }
  }

  /** The name and the arguments of a command, as nsh_parse_command collects them. */
  method CollectArguments(buf: array<char>, lookup: Expansion.Lookup) returns (argv: seq<string>)
    requires '\0' in buf[..] && forall name :: '\0' !in lookup(name)
    modifies buf
    ensures argv == Argv(CString(old(buf[..])), lookup)
  {
    hide NextArgument, CString, Contribution, KindAt, ValueOf;
    ghost var s := CString(buf[..]);
    argv := [];
    var nameKind := KindInBuffer(buf, 0, s);
    ghost var line := buf[..];
    var given, name, saveptr := GetArgument(buf, 0, s);
    if !given {
      return;
    }
    if nameKind != Redirection {
      ArgumentNulFree(line, s, 0);
      name := ExpandName(name, lookup);
    }
    argv := [name];
    while true
      invariant Rest(buf[..], s, saveptr)
      invariant argv + ArgvFrom(s, saveptr, lookup) == Argv(s, lookup)
      decreases |s| - saveptr
    {
      var kind := KindInBuffer(buf, saveptr, s);
      ghost var all := buf[..];
      var found, text, next := GetArgument(buf, saveptr, s);
      if !found {
        return;
      }
      var more;
      if kind == Redirection {
        more := [text];
        RedirectionStays(text, lookup);
      } else {
        ArgumentNulFree(all, s, saveptr);
        more := ExpandArgument(text, kind == Quoted, lookup);
      }
      assert argv + (more + ArgvFrom(s, next, lookup)) == (argv + more) + ArgvFrom(s, next, lookup);
      argv := argv + more;
      saveptr := next;
    }
  }

  lemma RedirectionStays(text: string, lookup: Expansion.Lookup)
    ensures Contribution(text, Redirection, lookup) == [text]
  {
  }

  method KindInBuffer(buf: array<char>, i: nat, ghost s: string) returns (kind: Kind)
    requires Rest(buf[..], s, i)
    ensures kind == KindAt(s, i)
  {
    var b := SkipInBuffer(buf, i, s);
    kind := if buf[b] == '>' then Redirection else if buf[b] == '"' then Quoted else Bare;
  }

  lemma ArgumentNulFree(buf: seq<char>, s: string, i: nat)
    requires Rest(buf, s, i) && NextArgument(s, i).Argument?
    ensures '\0' !in NextArgument(s, i).text
  {
    hide SkipSeparators, FindEnd;
  }

  // ----- What becomes of the arguments -----

  /** A bare argument that refers to variables becomes the words of its expansion exactly if the
      expansion is not empty and has no separator at either end. */
  lemma BareIsWordsIff(t: string, lookup: Expansion.Lookup)
    requires Expansion.FirstIsComplete(t)
    ensures var v := ValueOf(t, lookup);
            Contribution(t, Bare, lookup) == WordsOf(v)
            <==> v != "" && !IsSeparator(v[0]) && !IsSeparator(v[|v| - 1])
  {
    hide SplitFrom, WordsOf, ValueOf;
    SplitIsWordsIff(ValueOf(t, lookup));
  }

  /** A command without dollar signs is taken as it is written. */
  lemma NoDollarIsVerbatim(s: string, lookup: Expansion.Lookup)
    requires '$' !in s
    ensures Argv(s, lookup) == ArgumentsFrom(s, 0)
  {
    hide SkipSeparators, FindEnd, Expansion.PartsFrom, Expansion.Expanded;
    var r := NextArgument(s, 0);
    if r.Argument? {
      assert '$' !in r.text;
      Expansion.NoDollarUnchanged(r.text, lookup);
      RestIsVerbatim(s, r.next, lookup);
    }
  }

  lemma {:induction false} RestIsVerbatim(s: string, i: nat, lookup: Expansion.Lookup)
    requires i <= |s| && '$' !in s
    ensures ArgvFrom(s, i, lookup) == ArgumentsFrom(s, i)
    decreases |s| - i
  {
    hide SkipSeparators, FindEnd, Expansion.PartsFrom, Expansion.Expanded;
    var r := NextArgument(s, i);
    if r.Argument? {
      assert '$' !in r.text;
      Expansion.NoDollarUnchanged(r.text, lookup);
      Expansion.NoReference(r.text);
      RestIsVerbatim(s, r.next, lookup);
    }
  }

  /** An argument with a brace that is never closed is refused, and becomes empty. */
  lemma RefusedIsEmpty(t: string, lookup: Expansion.Lookup)
    requires !exists parts: seq<Expansion.Part> :: Expansion.Canonical(parts) && Expansion.SourceOf(parts) == t
    ensures ValueOf(t, lookup) == ""
  {
    hide Expansion.PartsFrom;
    Expansion.UnmatchedIff(t);
  }

  // ----- The argument vector of any command, element by element -----

  /** An argument as it is given: what separates it from the one before, its parts, and whether it
      stands in double quotes. */
  datatype Given = Given(gap: string, parts: seq<Expansion.Part>, quoted: bool)

  function SpellingOf(g: Given): Spelling {
    Spelling(g.gap, Expansion.SourceOf(g.parts), g.quoted)
  }

  function SpellingsOf(gs: seq<Given>): (sps: seq<Spelling>)
    ensures |sps| == |gs| && forall i | 0 <= i < |gs| :: sps[i] == SpellingOf(gs[i])
  {
    seq(|gs|, i requires 0 <= i < |gs| => SpellingOf(gs[i]))
  }

  /** No text is lost to a back-quote. */
  ghost predicate GoodGiven(g: Given) {
    Expansion.Canonical(g.parts) && (|g.parts| > 1 ==> !Expansion.HasTick(g.parts))
  }

  /** The substitution of the values for the references. */
  function Substituted(g: Given, lookup: Expansion.Lookup): string {
    Expansion.Values(g.parts, lookup, true)
  }

  /** In quotes, or without references, an argument is one; else it is split. */
  function Adds(g: Given, lookup: Expansion.Lookup): seq<string> {
    if g.quoted || |g.parts| == 1 then [Substituted(g, lookup)] else SplitFrom(Substituted(g, lookup), 0)
  }

  function AllAdd(gs: seq<Given>, lookup: Expansion.Lookup): seq<string> {
    if gs == [] then [] else Adds(gs[0], lookup) + AllAdd(gs[1..], lookup)
  }

  function KindOf(sp: Spelling): Kind {
    if sp.quoted then Quoted else if IsRedirection(sp.arg) then Redirection else Bare
  }

  lemma ValueIsSubstituted(g: Given, lookup: Expansion.Lookup)
    requires GoodGiven(g)
    ensures var t := Expansion.SourceOf(g.parts);
            && ValueOf(t, lookup) == Substituted(g, lookup)
            && (Expansion.FirstIsComplete(t) <==> |g.parts| > 1)
            && |g.parts| >= 1 && (IsRedirection(t) ==> |g.parts| == 1)
  {
    hide Expansion.PartsFrom, Expansion.SourceOf, Expansion.Canonical, Expansion.Values, Expansion.HasTick;
    hide Expansion.FirstIsComplete;
    var t := Expansion.SourceOf(g.parts);
    Expansion.TemplateIff(t, g.parts);
    Expansion.ExpansionIsSubstitution(t, lookup);
    Expansion.CompleteIffReference(t);
    if IsRedirection(t) {
      assert '$' !in t;
      Expansion.NoDollarUnchanged(t, lookup);
    }
  }

  lemma GivenAdds(g: Given, lookup: Expansion.Lookup)
    requires GoodGiven(g)
    ensures Contribution(Expansion.SourceOf(g.parts), KindOf(SpellingOf(g)), lookup) == Adds(g, lookup)
    ensures KindOf(SpellingOf(g)) == Redirection ==> Expansion.SourceOf(g.parts) == Substituted(g, lookup)
  {
    hide GoodGiven, Substituted, ValueOf, Expansion.SourceOf, Expansion.FirstIsComplete, SplitFrom;
    ValueIsSubstituted(g, lookup);
    if IsRedirection(Expansion.SourceOf(g.parts)) {
      RedirectionValue(Expansion.SourceOf(g.parts), lookup);
    }
  }

  lemma RedirectionValue(t: string, lookup: Expansion.Lookup)
    requires IsRedirection(t)
    ensures ValueOf(t, lookup) == t
  {
    assert '$' !in t;
    Expansion.NoDollarUnchanged(t, lookup);
  }

  lemma ArgvSkipsOne(s: string, i: nat, lookup: Expansion.Lookup)
    requires i < |s| && IsSeparator(s[i])
    ensures ArgvFrom(s, i, lookup) == ArgvFrom(s, i + 1, lookup)
  {
    hide FindEnd, Contribution;
    assert NextArgument(s, i) == NextArgument(s, i + 1) && KindAt(s, i) == KindAt(s, i + 1) by {
      assert SkipSeparators(s, i) == SkipSeparators(s, i + 1);
    }
    hide NextArgument, KindAt, SkipSeparators;
  }

  lemma {:induction false} ArgvSkips(s: string, i: nat, e: nat, lookup: Expansion.Lookup)
    requires i <= e <= |s| && forall k | i <= k < e :: IsSeparator(s[k])
    ensures ArgvFrom(s, i, lookup) == ArgvFrom(s, e, lookup)
    decreases e - i
  {
    hide ArgvFrom;
    if i < e {
      ArgvSkipsOne(s, i, lookup);
      ArgvSkips(s, i + 1, e, lookup);
    }
  }

  /** A spelled argument at position i: its text and kind, and what is left. */
  lemma TakesSpelling(s: string, i: nat, sp: Spelling, rest: string, lookup: Expansion.Lookup)
    requires i <= |s| && s[i..] == Spell(sp) + rest && GoodSpelling(sp) && Follows(sp, rest)
    ensures var e := i + |Spell(sp)|;
            var r := NextArgument(s, i);
            && e <= |s| && s[e..] == rest && r.Argument? && r.text == sp.arg && KindAt(s, i) == KindOf(sp)
            && ArgvFrom(s, r.next, lookup) == ArgvFrom(s, e, lookup)
  {
    hide NextArgument, SkipSeparators, Follows, ArgvFrom, Spell, GoodSpelling, KindOf, KindAt, IsSeparator;
    var next := NextSpelling(s, i, sp, rest);
    ArgvSkips(s, i + |Spell(sp)|, next, lookup);
    KindShows(sp);
    KindIs(s, i, i + |sp.gap|, Spell(sp)[|sp.gap|]);
  }

  lemma KindIs(s: string, i: nat, b: nat, c: char)
    requires i <= b < |s| && SkipSeparators(s, i) == b && s[b] == c
    ensures KindAt(s, i) == if c == '>' then Redirection else if c == '"' then Quoted else Bare
  {
    hide SkipSeparators;
  }

  /** The first character of a spelled argument tells its kind. */
  lemma KindShows(sp: Spelling)
    requires GoodSpelling(sp)
    ensures |sp.gap| < |Spell(sp)|
    ensures var c := Spell(sp)[|sp.gap|];
            KindOf(sp) == if c == '>' then Redirection else if c == '"' then Quoted else Bare
  {
  }

  lemma ArgvUnfolds(s: string, i: nat, lookup: Expansion.Lookup)
    requires i <= |s| && NextArgument(s, i).Argument?
    ensures var r := NextArgument(s, i);
            ArgvFrom(s, i, lookup) == Contribution(r.text, KindAt(s, i), lookup) + ArgvFrom(s, r.next, lookup)
  {
    hide NextArgument, KindAt, Contribution;
  }

  lemma {:induction false} SpelledAdd(s: string, i: nat, gs: seq<Given>, tail: string, lookup: Expansion.Lookup)
    requires i <= |s| && s[i..] == Spelled(SpellingsOf(gs)) + tail && GoodSpellings(SpellingsOf(gs))
    requires (forall g | g in gs :: GoodGiven(g)) && NoWords(tail)
    requires gs != [] ==> Follows(SpellingOf(gs[|gs| - 1]), tail)
    ensures ArgvFrom(s, i, lookup) == AllAdd(gs, lookup)
    decreases |gs|
  {
    hide NoWords, Follows, GoodSpelling, GoodSpellings, Spell, GoodGiven, SpellingOf, Adds, KindOf, Contribution;
    hide NextArgument, KindAt, ArgvFrom, IsSeparator;
    if gs == [] {
      assert s[i..] == tail;
      TailAdds(s, i, lookup);
    } else {
      var sps := SpellingsOf(gs);
      assert sps[1..] == SpellingsOf(gs[1..]);
      var rest := Spelled(sps[1..]) + tail;
      assert s[i..] == Spell(sps[0]) + rest;
      assert sps[|sps| - 1] == SpellingOf(gs[|gs| - 1]);
      SpelledFollows(sps, tail);
      GoodRest(sps);
      TakesSpelling(s, i, sps[0], rest, lookup);
      ArgvUnfolds(s, i, lookup);
      SpelledAdd(s, i + |Spell(sps[0])|, gs[1..], tail, lookup);
      GivenAdds(gs[0], lookup);
      SpellingIs(gs[0]);
    }
  }

  lemma GoodRest(sps: seq<Spelling>)
    requires sps != [] && GoodSpellings(sps)
    ensures GoodSpelling(sps[0]) && GoodSpellings(sps[1..])
  {
    hide GoodSpelling, Follows, Spell;
  }

  lemma SpellingIs(g: Given)
    ensures SpellingOf(g).arg == Expansion.SourceOf(g.parts)
  {
  }

  lemma TailAdds(s: string, i: nat, lookup: Expansion.Lookup)
    requires i <= |s| && NoWords(s[i..])
    ensures ArgvFrom(s, i, lookup) == [] && NextArgument(s, i) == NoMore
  {
    hide Contribution;
    ReadTail(s, i);
  }

  /** Any command whose arguments are spelled bare or in quotes, with redirections and references to
      variables anywhere: its name, and every argument in quotes, is the one substitution of its
      text, and every other argument with references is split. */
  lemma SpelledArgv(gs: seq<Given>, tail: string, lookup: Expansion.Lookup)
    requires GoodSpellings(SpellingsOf(gs)) && (forall g | g in gs :: GoodGiven(g)) && NoWords(tail)
    requires gs != [] ==> Follows(SpellingOf(gs[|gs| - 1]), tail)
    ensures Argv(Spelled(SpellingsOf(gs)) + tail, lookup) ==
            if gs == [] then [] else [Substituted(gs[0], lookup)] + AllAdd(gs[1..], lookup)
  {
    hide NoWords, Follows, GoodSpelling, Spell, GoodGiven, SpellingOf, Adds, Contribution, NextArgument, KindAt;
    hide ArgvFrom, AllAdd, Substituted, ValueOf;
    var sps := SpellingsOf(gs);
    var s := Spelled(sps) + tail;
    assert s[0..] == s;
    if gs == [] {
      assert s == tail;
      TailAdds(s, 0, lookup);
    } else {
      assert sps[1..] == SpellingsOf(gs[1..]);
      var rest := Spelled(sps[1..]) + tail;
      assert s == Spell(sps[0]) + rest;
      SpelledFollows(sps, tail);
      TakesSpelling(s, 0, sps[0], rest, lookup);
      SpelledAdd(s, |Spell(sps[0])|, gs[1..], tail, lookup);
      GivenAdds(gs[0], lookup);
      ValueIsSubstituted(gs[0], lookup);
      SpellingIs(gs[0]);
    }
  }
}
