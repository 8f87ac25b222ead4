/** `set`, `unset` and `export`: the NSH variables and the environment side by side. */
module Environment {
  import opened CStrings
  import opened Vars
  import Arguments
  import ParserState
  import FlatMachine

  // ----- nsh_trimspaces -----

  predicate IsSpace(c: char) {
    c == ' ' || '\t' <= c <= '\r'
  }

  /** isspace(): what separates arguments, and also vertical tab, form feed and carriage return. */
  lemma SpacesAre(c: char)
    ensures IsSpace(c) <==> Arguments.IsSeparator(c) || c == 11 as char || c == 12 as char || c == '\r'
  {
  }

  function TrimLeft(s: string): (r: string)
    ensures |r| <= |s| && r == s[|s| - |r|..]
    ensures r != "" ==> !IsSpace(r[0])
    ensures forall k | 0 <= k < |s| - |r| :: IsSpace(s[k])
  {
    if s != "" && IsSpace(s[0]) then TrimLeft(s[1..]) else s
  }

  function TrimRight(s: string): (r: string)
    ensures |r| <= |s| && r == s[..|r|]
    ensures r != "" ==> !IsSpace(r[|r| - 1])
    ensures forall k | |r| <= k < |s| :: IsSpace(s[k])
  {
    if s != "" && IsSpace(s[|s| - 1]) then TrimRight(s[..|s| - 1]) else s
  }

  function Trim(s: string): string {
    TrimRight(TrimLeft(s))
  }

  /** Any way of taking white space off both ends until none is left gives the trimmed string. */
  lemma TrimIsUnique(s: string, a: nat, b: nat)
    requires a <= b <= |s|
    requires forall k | 0 <= k < a || b <= k < |s| :: IsSpace(s[k])
    requires a < b ==> !IsSpace(s[a]) && !IsSpace(s[b - 1])
    ensures Trim(s) == s[a..b]
  {
    hide TrimLeft, TrimRight;
    var left := TrimLeft(s);
    if a < b {
      assert left == s[a..];
      assert left[b - 1 - a] == s[b - 1];
      assert TrimRight(left) == left[..b - a];
    } else {
      assert left == "";
    }
  }

  /** nsh_trimspaces: the result starts at `trimmed`; trailing spaces become NULs. */
  method TrimSpaces(buf: array<char>) returns (trimmed: nat)
    requires '\0' in buf[..]
    modifies buf
    ensures trimmed < buf.Length && CString(buf[trimmed..]) == Trim(CString(old(buf[..])))
  {
    hide CString, Trim;
    ghost var s := CString(buf[..]);
    trimmed := 0;
    while buf[trimmed] != '\0' && IsSpace(buf[trimmed])
      invariant 0 <= trimmed <= |s| < buf.Length && buf[|s|] == '\0'
      invariant forall k | 0 <= k < trimmed :: IsSpace(s[k])
      decreases |s| - trimmed
    {
      trimmed := trimmed + 1;
    }
    var end := CutSpaces(buf, trimmed, s);
    TrimIsUnique(s, trimmed, end);
  }

  /** The second half of it: from the end of the C string s down to `trimmed`, overwrite white space
      with NULs. */
  method CutSpaces(buf: array<char>, trimmed: nat, ghost s: string) returns (end: nat)
    requires trimmed <= |s| < buf.Length && buf[|s|] == '\0'
    requires forall k | 0 <= k < |s| :: buf[k] == s[k] && s[k] != '\0'
    modifies buf
    ensures trimmed <= end <= |s| && CString(buf[trimmed..]) == s[trimmed..end]
    ensures forall k | end <= k < |s| :: IsSpace(s[k])
    ensures trimmed < end ==> !IsSpace(s[end - 1])
  {
    hide CString, IsSpace;
    var len := trimmed;
    while buf[len] != '\0'
      invariant trimmed <= len <= |s|
      decreases |s| - len
    {
      len := len + 1;
    }
    end := len;
    while end > trimmed && IsSpace(buf[end - 1])
      invariant trimmed <= end <= |s|
      invariant forall k | 0 <= k < end :: buf[k] == s[k]
      invariant forall k | end <= k < |s| :: IsSpace(s[k])
      invariant buf[end] == '\0'
    {
      end := end - 1;
      buf[end] := '\0';
    }
    TextAt(buf[..], trimmed, s, end);
  }

  // ----- The two stores -----

  /** NSH variables, environment, and the two flags that `set` can change: +e sets `ignore`,
      +x sets `silent`. */
  datatype Stores = Stores(vars: seq<Entry>, env: map<string, string>, ignore: bool, silent: bool)

  /** nsh_envexpand: the exit status, or the NSH variable, or the environment variable, or
      nothing. */
  function Expand(st: Stores, name: string, fail: bool): string {
    if name == "?" then (if fail then "1" else "0")
    else if Lookup(st.vars, name).Some? then Lookup(st.vars, name).value
    else if name in st.env then st.env[name]
    else ""
  }

  /** `$?` is 1 exactly if the last command failed; here, after a command that is not `break`, run
      where no condition is awaited. */
  lemma StatusIsLastResult(st: Stores, w: ParserState.World, np: ParserState.Parser, h: ParserState.History,
                           c: seq<ParserState.Token>)
    requires ParserState.Shape(np) && FlatMachine.Plain(c) && !ParserState.IsBreak(c) && ParserState.CmdEnabled(np)
    requires !ParserState.AwaitsDo(ParserState.Top(np.lp).state)
    requires ParserState.Top(np.ie).state != ParserState.ItefIf
    ensures var failed := w.fails(FlatMachine.After(h, c, np.fail));
            Expand(st, "?", ParserState.ParseCommand(w, np, h, c).np.fail) == if failed then "1" else "0"
  {
    hide ParserState.ParseCommand;
    FlatMachine.PlainPasses(w, np, h, c);
  }

  /** Names of environment variables have no equals sign: setenv() refuses them. */
  ghost predicate EnvNames(env: map<string, string>) {
    forall name | name in env :: '=' !in name
  }

  /** Names are distinct, and none is in both stores. */
  ghost predicate Disjoint(st: Stores) {
    GoodEntries(st.vars) && EnvNames(st.env) && forall name | name in st.env :: Lookup(st.vars, name).None?
  }

  /** What the system does with a request: whether memory is granted, whether the environment
      accepts a new value or a removal. */
  datatype System = System(fits: bool, setenv: bool, unsetenv: bool)

  datatype Command =
    | SetVariable(name: string, value: string)
    | UnsetVariable(name: string)
    | Export(name: string, given: Option<string>)

  /** The arguments of a command are C strings. */
  predicate GoodCommand(c: Command) {
    && NulFree(c.name)
    && match c
       case SetVariable(_, value) => NulFree(value)
       case UnsetVariable(_) => true
       case Export(_, given) => given.Some? ==> NulFree(given.value)
  }

  datatype Done = Done(st: Stores, ok: bool)

  /** setenv() with a name that has an equals sign fails. */
  predicate EnvAccepts(name: string, sys: System) {
    sys.setenv && '=' !in name
  }

  function PutEnv(st: Stores, name: string, value: string, ok: bool): Stores {
    if ok then st.(env := st.env[name := value]) else st
  }

  function ExportValue(st: Stores, name: string, value: Option<string>): string {
    if value.Some? then value.value
    else if Lookup(st.vars, name).Some? then Lookup(st.vars, name).value
    else ""
  }

  /** cmd_set (with a name and a value), cmd_unset and cmd_export. */
  function Do(st: Stores, c: Command, sys: System): Done {
    match c
    case SetVariable(name, value) =>
      if name in st.env then
        Done(PutEnv(st, name, Trim(value), EnvAccepts(name, sys)), EnvAccepts(name, sys))
      else
        Done(st.(vars := Apply(st.vars, Set(name, Trim(value), sys.fits))), sys.fits)
    case UnsetVariable(name) =>
      var vars := Apply(st.vars, Unset(name));
      Done(st.(vars := vars, env := if sys.unsetenv then st.env - {name} else st.env),
           sys.unsetenv && (sys.fits || vars == [] || vars == st.vars))
    case Export(name, value) =>
      if !EnvAccepts(name, sys) then
        Done(st, false)
      else
        var vars := Apply(st.vars, Unset(name));
        Done(PutEnv(st, name, ExportValue(st, name, value), true).(vars := vars),
             sys.fits || vars == [] || vars == st.vars)
  }

  lemma TrimGood(value: string)
    requires NulFree(value)
    ensures NulFree(Trim(value))
  {
  }

  /** What a command does to the NSH variables, unless it leaves them alone. */
  function ChangeOf(c: Command, sys: System): Change {
    if c.SetVariable? then Set(c.name, Trim(c.value), sys.fits) else Unset(c.name)
  }

  /** Every search for the name that a command makes ends.  A name that is in the environment is
      set there, and with a value to export, a name with an equals sign is refused before any
      search. */
  ghost predicate CommandEnds(st: Stores, c: Command) {
    match c
    case SetVariable(name, _) => name in st.env || SearchEnds(st.vars, name)
    case UnsetVariable(name) => SearchEnds(st.vars, name)
    case Export(name, given) => (given.Some? && '=' in name) || SearchEnds(st.vars, name)
  }

  /** A command does no harm unless it has to search for the text of an NSH variable, or it sets a
      name with an equals sign, memory is granted, and the part of the name before its first equals
      sign is an environment variable, or an NSH variable other than the one that the name
      matches. */
  predicate Innocent(st: Stores, c: Command, sys: System) {
    && (!(c.Export? && c.given.Some?) ==> !IsText(st.vars, c.name))
    && (c.SetVariable? && '=' in c.name && sys.fits ==>
          NameOf(c.name) !in st.env && (Lookup(st.vars, NameOf(c.name)).None? || Lookup(st.vars, c.name).Some?))
  }

  /** A command's searches end exactly if it need not search for the text of an NSH variable. */
  lemma CommandEndsIff(st: Stores, c: Command)
    requires Disjoint(st) && GoodCommand(c)
    ensures CommandEnds(st, c) <==> (c.Export? && c.given.Some?) || !IsText(st.vars, c.name)
  {
    hide Lookup, Search, SearchEnds;
    SearchEndsIff(st.vars, c.name);
  }

  /** After `set a b`, none of `unset a=b`, `set a=b c`, `export a=b` and the expansion of `$a=b`
      comes to the end of its search. */
  lemma TextOverruns(env: map<string, string>, sys: System)
    requires sys.fits && "a" !in env && EnvNames(env)
    ensures var st := Do(Stores([], env, false, true), SetVariable("a", "b"), sys).st;
            && st.vars == [Entry("a", "b")] && Search(st.vars, "a=b") == Overrun
            && !CommandEnds(st, UnsetVariable("a=b"))
            && !CommandEnds(st, SetVariable("a=b", "c"))
            && !CommandEnds(st, Export("a=b", None))
  {
    hide Search, EndsInside;
    var e := Entry("a", "b");
    assert TrimLeft("b") == "b" && TrimRight("b") == "b";
    StoredPlain("a", "b");
    assert Without([], "a") == [] && [] + [e] == [e];
    assert '=' in "a=b" by {
      assert "a=b"[1] == '=';
    }
    OneTextOverruns(e);
    assert Pair(e) == "a=b";
  }

  lemma ChangeIsGood(st: Stores, c: Command, sys: System)
    requires GoodCommand(c)
    ensures GoodChange(ChangeOf(c, sys))
    ensures Innocent(st, c, sys) && !(c.Export? && '=' in c.name) ==> Harmless(st.vars, ChangeOf(c, sys))
    ensures !Harmless(st.vars, ChangeOf(c, sys)) ==> '=' in c.name
  {
    hide Trim, Lookup;
    if c.SetVariable? {
      TrimGood(c.value);
    }
  }

  /** The searches of a command end, and after it names are distinct and every name is out of one
      of the two stores, exactly if the command is innocent. */
  lemma KeepsDisjointIff(st: Stores, c: Command, sys: System)
    requires Disjoint(st) && GoodCommand(c)
    ensures CommandEnds(st, c) && Disjoint(Do(st, c, sys).st) <==> Innocent(st, c, sys)
  {
    hide Trim, Lookup, Apply, NameOf, CommandEnds, SearchEnds, IsText;
    var change := ChangeOf(c, sys);
    CommandEndsIff(st, c);
    SearchEndsIff(st.vars, c.name);
    ChangeIsGood(st, c, sys);
    ApplyKeepsGoodIff(st.vars, change);
    if Harmless(st.vars, change) {
      forall name | '=' !in name
        ensures Lookup(Apply(st.vars, change), name) ==
                if change.Set? && change.fits && name == NameOf(c.name) then Some(Stored(c.name, change.value).value)
                else if name == NameOf(c.name) && Lookup(st.vars, c.name).Some? then None
                else Lookup(st.vars, name)
      {
        ApplyLookup(st.vars, change, name);
      }
    }
  }

  /** With `a` in the environment, `set a=b c` puts `a` into both stores, and `$a` no longer
      expands to the value in the environment. */
  lemma EqualsSignShadows(value: string, sys: System, fail: bool)
    requires sys.fits
    ensures var st := Do(Stores([], map["a" := value], false, true), SetVariable("a=b", "c"), sys).st;
            st.vars == [Entry("a", "b=c")] && st.env == map["a" := value] && Expand(st, "a", fail) == "b=c"
  {
    NamesOfExample();
    assert TrimLeft("c") == "c" && TrimRight("c") == "c";
    assert Without([], "a=b") == [];
    var e := Entry("a", "b=c");
    assert [] + [e] == [e];
    assert Pair(e) == "a=b=c" && Matches(e, "a");
    IndexIs([e], "a", 0);
  }

  function DoAll(st: Stores, cs: seq<(Command, System)>): Stores
    decreases |cs|
  {
    if cs == [] then st else DoAll(Do(st, cs[0].0, cs[0].1).st, cs[1..])
  }

  /** Every command of a run is innocent when it is run. */
  predicate InnocentRun(st: Stores, cs: seq<(Command, System)>)
    decreases |cs|
  {
    cs == [] || (Innocent(st, cs[0].0, cs[0].1) && InnocentRun(Do(st, cs[0].0, cs[0].1).st, cs[1..]))
  }

  /** Every search of a run ends, and before and after every command the stores are disjoint. */
  ghost predicate AlwaysDisjoint(st: Stores, cs: seq<(Command, System)>)
    decreases |cs|
  {
    && Disjoint(st)
    && (cs == [] || (CommandEnds(st, cs[0].0) && AlwaysDisjoint(Do(st, cs[0].0, cs[0].1).st, cs[1..])))
  }

  /** All searches of a run end and the stores stay disjoint throughout, exactly if all its commands
      are innocent. */
  lemma {:induction false} RunKeepsDisjointIff(st: Stores, cs: seq<(Command, System)>)
    requires Disjoint(st) && forall c | c in cs :: GoodCommand(c.0)
    ensures AlwaysDisjoint(st, cs) <==> InnocentRun(st, cs)
    decreases |cs|
  {
    hide Do, Innocent, Disjoint, CommandEnds;
    if cs != [] {
      var st' := Do(st, cs[0].0, cs[0].1).st;
      KeepsDisjointIff(st, cs[0].0, cs[0].1);
      if Disjoint(st') {
        RunKeepsDisjointIff(st', cs[1..]);
      }
    }
  }

  /** After any innocent run, the order of lookup is immaterial, and the search for a name that is
      in the environment ends. */
  lemma {:induction false} LookupOrderIsImmaterial(st: Stores, cs: seq<(Command, System)>, name: string, fail: bool)
    requires Disjoint(st) && (forall c | c in cs :: GoodCommand(c.0)) && InnocentRun(st, cs)
    ensures var st' := DoAll(st, cs);
            && Disjoint(st')
            && (NulFree(name) && name in st'.env ==> SearchEnds(st'.vars, name))
            && (name != "?" && name in st'.env ==> Expand(st', name, fail) == st'.env[name])
    decreases |cs|
  {
    hide Do, Innocent, CommandEnds, SearchEnds, Lookup;
    if cs == [] {
      if NulFree(name) && name in st.env {
        GoodNameEnds(st.vars, name);
      }
    } else {
      KeepsDisjointIff(st, cs[0].0, cs[0].1);
      LookupOrderIsImmaterial(Do(st, cs[0].0, cs[0].1).st, cs[1..], name, fail);
    }
  }

  /** An innocent set succeeds exactly if what it needs is granted: the environment if the name is
      there, else memory.  Then the part of the name before any equals sign expands to the rest and
      the trimmed value, and every other name as before; if it fails, what the name matched is gone
      from the NSH variables, and the environment is as it was. */
  lemma SetExpands(st: Stores, name: string, value: string, sys: System, other: string, fail: bool)
    requires Disjoint(st) && NulFree(name) && NulFree(value) && Innocent(st, SetVariable(name, value), sys)
    requires NameOf(name) != "?" && '=' !in other
    ensures var r := Do(st, SetVariable(name, value), sys);
            && (r.ok <==> if name in st.env then sys.setenv else sys.fits)
            && (r.ok ==> Expand(r.st, NameOf(name), fail) == Stored(name, Trim(value)).value)
            && (r.ok && '=' !in name ==> Expand(r.st, name, fail) == Trim(value))
            && r.st.ignore == st.ignore && r.st.silent == st.silent && r.st.env.Keys == st.env.Keys
            && (!r.ok && Lookup(st.vars, name).Some? ==> Expand(r.st, NameOf(name), fail) == "")
            && (!r.ok && Lookup(st.vars, name).None? ==>
                  Expand(r.st, NameOf(name), fail) == Expand(st, NameOf(name), fail))
            && (other != NameOf(name) ==> Expand(r.st, other, fail) == Expand(st, other, fail))
  {
    hide Trim, Lookup, Apply, NameOf, Disjoint;
    if '=' !in name {
      StoredPlain(name, Trim(value));
    }
    if name in st.env {
      StoredInEnv(st, name, Trim(value), sys);
    } else {
      TrimGood(value);
      StoredInVars(st, name, Trim(value), sys, other);
    }
  }

  /** An environment variable is set in the environment. */
  lemma StoredInEnv(st: Stores, name: string, value: string, sys: System)
    requires Disjoint(st) && name in st.env
    ensures NameOf(name) == name && Stored(name, value).value == value && Lookup(st.vars, name).None?
    ensures EnvAccepts(name, sys) == sys.setenv
  {
    hide Lookup;
    StoredPlain(name, value);
  }

  /** Any other name is set among the NSH variables. */
  lemma StoredInVars(st: Stores, name: string, value: string, sys: System, other: string)
    requires Disjoint(st) && NulFree(name) && NulFree(value) && name !in st.env && '=' !in other
    requires Innocent(st, SetVariable(name, value), sys)
    ensures var vars := Apply(st.vars, Set(name, value, sys.fits));
            && (sys.fits ==> Lookup(vars, NameOf(name)) == Some(Stored(name, value).value))
            && (!sys.fits && Lookup(st.vars, name).Some? ==>
                  Lookup(vars, NameOf(name)).None? && NameOf(name) !in st.env)
            && (!sys.fits && Lookup(st.vars, name).None? ==>
                  Lookup(vars, NameOf(name)) == Lookup(st.vars, NameOf(name)))
            && (other != NameOf(name) ==> Lookup(vars, other) == Lookup(st.vars, other))
  {
    hide Lookup, Apply, NameOf, IsText;
    var change := Set(name, value, sys.fits);
    assert Harmless(st.vars, change);
    ApplyLookup(st.vars, change, NameOf(name));
    ApplyLookup(st.vars, change, other);
    LookupByName(st.vars, name);
  }

  lemma StoredPlain(name: string, value: string)
    requires '=' !in name
    ensures NameOf(name) == name && Stored(name, value) == Entry(name, value)
  {
  }

  /** After an innocent unset no NSH variable has the name, whatever fails, and it can be searched for
      again; it is out of the environment unless unsetenv fails.  The unset succeeds exactly if
      unsetenv does, and the buffer could be shrunk or did not have to be.  Names that differ before
      any equals sign expand as before. */
  lemma UnsetExpands(st: Stores, name: string, sys: System, other: string, fail: bool)
    requires Disjoint(st) && NulFree(name) && name != "?" && '=' !in other
    requires Innocent(st, UnsetVariable(name), sys)
    ensures var r := Do(st, UnsetVariable(name), sys);
            && SearchEnds(r.st.vars, name) && Lookup(r.st.vars, name).None?
            && r.st.env == (if sys.unsetenv then st.env - {name} else st.env)
            && (r.ok <==> sys.unsetenv && (sys.fits || Lookup(st.vars, name).None? || |st.vars| == 1))
            && (sys.unsetenv ==> Expand(r.st, name, fail) == "")
            && (other != NameOf(name) ==> Expand(r.st, other, fail) == Expand(st, other, fail))
            && r.st.ignore == st.ignore && r.st.silent == st.silent
  {
    hide Lookup, NameOf, SearchEnds, Index;
    var vars := Apply(st.vars, Unset(name));
    ApplyKeepsGoodIff(st.vars, Unset(name));
    ApplyLookup(st.vars, Unset(name), NameOf(name));
    ApplyLookup(st.vars, Unset(name), other);
    MatchIsLookup(st.vars, name);
    MatchIsLookup(vars, name);
    SearchEndsIff(vars, name);
    ShrinksUnless(st.vars, name);
  }

  /** Removing a name leaves as many entries as there were exactly if it is not set. */
  lemma ShrinksUnless(es: seq<Entry>, name: string)
    ensures Without(es, name) == es <==> Lookup(es, name).None?
    ensures Lookup(es, name).Some? ==> |Without(es, name)| == |es| - 1
  {
    hide Matches;
  }

  /** Exporting a name without giving a value keeps its expansion exactly if the name is an NSH
      variable, or expands to nothing anyway, or the environment refuses it.  In particular an
      environment variable that is exported again is emptied. */
  lemma ExportKeepsExpansionIff(st: Stores, name: string, sys: System, fail: bool)
    requires Disjoint(st) && NulFree(name) && name != "?" && Innocent(st, Export(name, None), sys)
    ensures var r := Do(st, Export(name, None), sys);
            Expand(r.st, name, fail) == Expand(st, name, fail)
            <==> Lookup(st.vars, name).Some? || Expand(st, name, fail) == "" || !EnvAccepts(name, sys)
  {
    hide Lookup, Apply;
    if '=' !in name {
      ApplyLookup(st.vars, Unset(name), name);
    }
  }

  /** An innocent export that the environment accepts puts the name there, and nowhere else: it
      expands to the value given, or else to the value of the NSH variable, or to nothing.  It
      succeeds exactly if in addition the buffer could be shrunk or did not have to be. */
  lemma ExportExpands(st: Stores, name: string, value: Option<string>, sys: System, other: string, fail: bool)
    requires Disjoint(st) && NulFree(name) && name != "?" && '=' !in other
    requires Innocent(st, Export(name, value), sys)
    ensures var r := Do(st, Export(name, value), sys);
            && (EnvAccepts(name, sys) ==>
                  && name in r.st.env && Lookup(r.st.vars, name).None?
                  && (value.Some? ==> Expand(r.st, name, fail) == value.value)
                  && (value.None? && Lookup(st.vars, name).Some? ==>
                        Expand(r.st, name, fail) == Expand(st, name, fail) == Lookup(st.vars, name).value)
                  && (value.None? && Lookup(st.vars, name).None? ==> Expand(r.st, name, fail) == ""))
            && (!EnvAccepts(name, sys) ==> r.st == st)
            && (r.ok <==> EnvAccepts(name, sys) && (sys.fits || Lookup(st.vars, name).None? || |st.vars| == 1))
            && (other != name ==> Expand(r.st, other, fail) == Expand(st, other, fail))
            && r.st.ignore == st.ignore && r.st.silent == st.silent
  {
    hide Lookup, Index;
    if '=' !in name {
      ApplyLookup(st.vars, Unset(name), name);
      ApplyLookup(st.vars, Unset(name), other);
      ShrinksUnless(st.vars, name);
    }
  }

  /** A value stored by an innocent `set`, expanded without quotes, gives exactly its words as
      arguments, in order and none of them empty, if and only if it is not empty and does not
      begin with a separator, which only a name with an equals sign can make it do. */
  lemma StoredValueSplits(st: Stores, name: string, value: string, sys: System, fail: bool)
    requires Disjoint(st) && NulFree(name) && NulFree(value) && NameOf(name) != "?"
    requires Innocent(st, SetVariable(name, value), sys) && Do(st, SetVariable(name, value), sys).ok
    ensures var v := Expand(Do(st, SetVariable(name, value), sys).st, NameOf(name), fail);
            && (Arguments.SplitFrom(v, 0) == Arguments.WordsOf(v) <==> v != "" && !Arguments.IsSeparator(v[0]))
            && ('=' !in name ==> (v != "" && !Arguments.IsSeparator(v[0]) <==> Trim(value) != ""))
  {
    hide Trim, Do, Expand, Arguments.SplitFrom, Arguments.WordsOf, NameOf, Disjoint, Innocent;
    SetExpands(st, name, value, sys, NameOf(name), fail);
    StoredEnds(name, value);
    Arguments.SplitIsWordsIff(Stored(name, Trim(value)).value);
  }

  lemma StoredEnds(name: string, value: string)
    ensures var v := Stored(name, Trim(value)).value;
            && (v != "" ==> !Arguments.IsSeparator(v[|v| - 1]))
            && ('=' !in name ==> v == Trim(value) && (v != "" ==> !Arguments.IsSeparator(v[0])))
  {
    hide NameOf, Trim;
    if Trim(value) != "" {
      TrimEnds(value);
    }
  }

  lemma TrimEnds(value: string)
    requires Trim(value) != ""
    ensures var v := Trim(value);
            !Arguments.IsSeparator(v[0]) && !Arguments.IsSeparator(v[|v| - 1])
  {
    var left := TrimLeft(value);
    var v := TrimRight(left);
    assert v[0] == left[0];
  }

  // ----- cmd_set with all its arguments -----

  /** The letters after '+' or '-', up to a space; a wrong letter ends the scan with an error,
      but the letters before it have taken effect. */
  function ApplyOptions(st: Stores, plus: bool, letters: string): Done
    decreases |letters|
  {
    if letters == "" || letters[0] == ' ' then Done(st, true)
    else if letters[0] == 'e' then ApplyOptions(st.(ignore := plus), plus, letters[1..])
    else if letters[0] == 'x' then ApplyOptions(st.(silent := plus), plus, letters[1..])
    else Done(st, false)
  }

  function Options(st: Stores, option: string): Done {
    if |option| < 2 || (option[0] != '-' && option[0] != '+') then Done(st, false)
    else ApplyOptions(st, option[0] == '+', option[1..])
  }

  /** set [{+|-}{e|x|xe|ex}] [<name> <value>], on the arguments after the command name. */
  function SetCommand(st: Stores, args: seq<string>, sys: System): Done {
    var r := if |args| == 1 || |args| == 3 then Options(st, args[0]) else Done(st, true);
    if !r.ok then r
    else if |args| == 2 then Do(r.st, SetVariable(args[0], args[1]), sys)
    else if |args| == 3 then Do(r.st, SetVariable(args[1], args[2]), sys)
    else r
  }

  /** The search of `set`, if it comes to one, ends. */
  ghost predicate SetEnds(st: Stores, args: seq<string>) {
    if |args| == 2 then CommandEnds(st, SetVariable(args[0], args[1]))
    else if |args| == 3 && Options(st, args[0]).ok then CommandEnds(st, SetVariable(args[1], args[2]))
    else true
  }

  lemma {:induction false} OptionsKeepVariables(st: Stores, plus: bool, letters: string)
    ensures ApplyOptions(st, plus, letters).st ==
            st.(ignore := ApplyOptions(st, plus, letters).st.ignore,
                silent := ApplyOptions(st, plus, letters).st.silent)
    decreases |letters|
  {
    if letters != "" {
      OptionsKeepVariables(st.(ignore := plus), plus, letters[1..]);
      OptionsKeepVariables(st.(silent := plus), plus, letters[1..]);
    }
  }

  /** The option letters at the front. */
  function Scanned(letters: string): (p: string)
    ensures p <= letters && forall c | c in p :: c == 'e' || c == 'x'
    ensures p != letters ==> letters[|p|] != 'e' && letters[|p|] != 'x'
  {
    if letters == "" || (letters[0] != 'e' && letters[0] != 'x') then "" else [letters[0]] + Scanned(letters[1..])
  }

  /** Each letter at the front sets its flag to what the sign says, and no other flag is changed; the
      scan succeeds exactly if nothing or a space comes after these letters. */
  lemma {:induction false} OptionsSetFlags(st: Stores, plus: bool, letters: string)
    ensures var r := ApplyOptions(st, plus, letters);
            var p := Scanned(letters);
            && (r.ok <==> p == letters || letters[|p|] == ' ')
            && r.st.ignore == (if 'e' in p then plus else st.ignore)
            && r.st.silent == (if 'x' in p then plus else st.silent)
    decreases |letters|
  {
    if letters != "" {
      var rest := letters[1..];
      assert letters == [letters[0]] + rest;
      assert letters[0] == 'e' || letters[0] == 'x' ==> Scanned(letters) == [letters[0]] + Scanned(rest);
      if letters[0] == 'e' {
        OptionsSetFlags(st.(ignore := plus), plus, rest);
      } else if letters[0] == 'x' {
        OptionsSetFlags(st.(silent := plus), plus, rest);
      }
    }
  }

  /** `set` with a sign and letters, with a name and a value, or with both: the flags are set first,
      and only if that succeeds is the variable set.  Without options no flag is changed, and without
      a name no variable; other numbers of arguments do nothing. */
  lemma SetCommandMeans(st: Stores, args: seq<string>, sys: System)
    ensures var r := SetCommand(st, args, sys);
            var signed := |args| in {1, 3} && |args[0]| >= 2 && args[0][0] in "+-";
            var p := if signed then Scanned(args[0][1..]) else "";
            var good := signed && (p == args[0][1..] || args[0][1 + |p|] == ' ');
            var flagged := st.(ignore := if 'e' in p then args[0][0] == '+' else st.ignore,
                               silent := if 'x' in p then args[0][0] == '+' else st.silent);
            && (|args| == 2 ==> r == Do(st, SetVariable(args[0], args[1]), sys))
            && (|args| == 3 && good ==> r == Do(flagged, SetVariable(args[1], args[2]), sys))
            && (|args| == 1 || (|args| == 3 && !good) ==> r == Done(flagged, good))
            && (|args| !in {1, 2, 3} ==> r == Done(st, true))
  {
    hide Do, ApplyOptions, Scanned;
    if |args| in {1, 3} && |args[0]| >= 2 {
      OptionsSetFlags(st, args[0][0] == '+', args[0][1..]);
      OptionsKeepVariables(st, args[0][0] == '+', args[0][1..]);
    }
  }

  /** The session: its variables and the environment of its task group. */
  class Session {
    const vars: VarStore
    var env: map<string, string>
    var ignore: bool
    var silent: bool

    ghost predicate Valid()
      reads this, vars, vars.varp
    {
      vars.Valid() && EnvNames(env)
    }

    ghost function View(): Stores
      reads this, vars
    {
      Stores(vars.entries, env, ignore, silent)
    }

    constructor (env0: map<string, string>)
      requires EnvNames(env0)
      ensures Valid() && fresh(vars) && vars.varp == null
      ensures View() == Stores([], env0, false, true)
    {
      vars := new VarStore();
      env, ignore, silent := env0, false, true;
    }

    /** nsh_envexpand; `ended` is false if its search does not end. */
    method EnvExpand(name: string, fail: bool) returns (value: string, ended: bool)
      requires Valid() && NulFree(name)
      ensures ended == (name == "?" || SearchEnds(vars.entries, name))
      ensures ended ==> value == Expand(View(), name, fail)
    {
      hide Lookup, SearchEnds;
      if name == "?" {
        return if fail then "1" else "0", true;
      }
      var found;
      found, ended := vars.GetVar(name);
      if ended && found.Some? {
        return found.value, ended;
      }
      value := if name in env then env[name] else "";
    }

    /** The last part of cmd_set: store a trimmed value, in the environment if the name is
        already there. */
    method StoreValue(name: string, text: string, sys: System) returns (ok: bool, ended: bool)
      requires Valid() && NulFree(name) && NulFree(text)
      modifies this`env, vars, vars.varp
      ensures Valid() && ended == CommandEnds(old(View()), SetVariable(name, text))
      ensures ended ==> Done(View(), ok) == Do(old(View()), SetVariable(name, text), sys)
      ensures vars.varp == old(vars.varp) || fresh(vars.varp)
    {
      hide Trim, Lookup, Apply, CString, SearchEnds;
      TrimGood(text);
      var buf := ToBuffer(text);
      var start := TrimSpaces(buf);
      var value := CString(buf[start..]);
      if name !in env {
        ok, ended := vars.SetVar(name, value, sys.fits);
      } else {
        ok, ended := sys.setenv && '=' !in name, true;
        if ok {
          env := env[name := value];
        }
      }
    }

    method SetOptions(option: string) returns (ok: bool)
      requires Valid()
      modifies this`ignore, this`silent
      ensures Valid() && Done(View(), ok) == Options(old(View()), option)
    {
      if |option| < 2 || (option[0] != '-' && option[0] != '+') {
        return false;
      }
      var plus := option[0] == '+';
      var i := 1;
      assert option[1..] == option[i..];
      while i < |option| && option[i] != ' '
        invariant 1 <= i <= |option|
        invariant Valid() && env == old(env)
        invariant ApplyOptions(old(View()), plus, option[1..]) == ApplyOptions(View(), plus, option[i..])
      {
        assert option[i..][1..] == option[i + 1..];
        if option[i] == 'e' {
          ignore := plus;
        } else if option[i] == 'x' {
          silent := plus;
        } else {
          return false;
        }
        i := i + 1;
      }
      return true;
    }

    /** cmd_set, on the arguments after the command name. */
    method CmdSet(args: seq<string>, sys: System) returns (ok: bool, ended: bool)
      requires Valid()
      requires forall arg | arg in args :: NulFree(arg)
      modifies this, vars, vars.varp
      ensures Valid() && ended == SetEnds(old(View()), args)
      ensures ended ==> Done(View(), ok) == SetCommand(old(View()), args, sys)
    {
      hide Do, Options;
      ok, ended := true, true;
      var ndx := 0;
      if |args| == 1 || |args| == 3 {
        ok := SetOptions(args[0]);
        ndx := 1;
      }
      if ok && (|args| == 2 || |args| == 3) {
        ok, ended := StoreValue(args[ndx], args[ndx + 1], sys);
      }
    }

    /** cmd_unset. */
    method CmdUnset(name: string, sys: System) returns (ok: bool, ended: bool)
      requires Valid() && NulFree(name)
      modifies this`env, vars, vars.varp
      ensures Valid() && ended == CommandEnds(old(View()), UnsetVariable(name))
      ensures ended ==> Done(View(), ok) == Do(old(View()), UnsetVariable(name), sys)
    {
      hide Lookup, Apply, SearchEnds;
      ok, ended := vars.UnsetVar(name, sys.fits);
      if sys.unsetenv {
        env := env - {name};
      } else {
        ok := false;
      }
    }

    /** cmd_export. */
    method CmdExport(name: string, given: Option<string>, sys: System) returns (ok: bool, ended: bool)
      requires Valid() && NulFree(name) && (given.Some? ==> NulFree(given.value))
      modifies this`env, vars, vars.varp
      ensures Valid() && ended == CommandEnds(old(View()), Export(name, given))
      ensures ended ==> Done(View(), ok) == Do(old(View()), Export(name, given), sys)
    {
      hide Lookup, Apply, SearchEnds;
      if '=' !in name {
        GoodNameEnds(vars.entries, name);
      }
      var value := "";
      ok, ended := false, true;
      if given.Some? {
        value := given.value;
      } else {
        var tmp;
        tmp, ended := vars.GetVar(name);
        if !ended {
          return;
        }
        if tmp.Some? {
          value := tmp.value;
        }
      }
      ok := sys.setenv && '=' !in name;
      if ok {
        env := env[name := value];
        ok, ended := vars.UnsetVar(name, sys.fits);
      }
    }
  }
}
