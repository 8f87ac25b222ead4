/** Expanding `$name` and `${name}` in one argument, by concatenation, without back-slash
    quoting and without back-quoted commands. */
module Expansion {
  import opened CStrings

  // ----- What a template means -----

  datatype Part = Literal(text: string) | Variable(name: string, braced: bool)

  datatype Template = Unmatched | Template(parts: seq<Part>)

  /** The first c at or after i, or the end of the string. */
  function FindChar(t: string, c: char, i: nat): (q: nat)
    requires i <= |t|
    ensures i <= q <= |t|
    ensures q < |t| ==> t[q] == c
    decreases |t| - i
  {
    if i == |t| || t[i] == c then i else FindChar(t, c, i + 1)
  }

  lemma {:induction false} FindCharSkips(t: string, c: char, i: nat)
    requires i <= |t|
    ensures forall k | i <= k < FindChar(t, c, i) :: t[k] != c
    decreases |t| - i
  {
    if i < |t| && t[i] != c {
      FindCharSkips(t, c, i + 1);
    }
  }

  function Prefixed(p: Part, q: Part, rest: Template): (r: Template)
    ensures r.Template? ==> r.parts != [] && r.parts[0] == p
  {
    if rest.Unmatched? then Unmatched else Template([p, q] + rest.parts)
  }

  /** The parts of a template from position w on.  A name in braces ends at the first closing
      brace; a bare name takes all the rest of the argument. */
  function PartsFrom(t: string, w: nat): (r: Template)
    requires w <= |t|
    ensures r.Template? ==> r.parts != [] && r.parts[0].Literal?
    decreases |t| - w, 1
  {
    var i := FindChar(t, '$', w);
    if i == |t| then
      Template([Literal(t[w..])])
    else if i + 1 < |t| && t[i + 1] == '{' then
      BracedFrom(t, w, i)
    else
      Template([Literal(t[w..i]), Variable(t[i + 1..], false), Literal("")])
  }

  /** The same where the first reference, at i, opens a brace. */
  function BracedFrom(t: string, w: nat, i: nat): (r: Template)
    requires w <= i && i + 1 < |t|
    ensures r.Template? ==> r.parts != [] && r.parts[0].Literal?
    decreases |t| - i, 0
  {
    var j := FindChar(t, '}', i + 2);
    if j == |t| then Unmatched else Prefixed(Literal(t[w..i]), Variable(t[i + 2..j], true), PartsFrom(t, j + 1))
  }

  function Source(p: Part): string {
    match p
    case Literal(text) => text
    case Variable(name, true) => "${" + name + "}"
    case Variable(name, false) => "$" + name
  }

  function SourceOf(parts: seq<Part>): string {
    if parts == [] then "" else Source(parts[0]) + SourceOf(parts[1..])
  }

  lemma FindCharIs(t: string, c: char, i: nat, q: nat)
    requires i <= q <= |t| && (q < |t| ==> t[q] == c) && forall k | i <= k < q :: t[k] != c
    ensures FindChar(t, c, i) == q
  {
    FindCharSkips(t, c, i);
  }

  // The three ways a template can go on from position w, with its first '$' at i.

  lemma PartsLast(t: string, w: nat)
    requires w <= |t| && forall k | w <= k < |t| :: t[k] != '$'
    ensures PartsFrom(t, w) == Template([Literal(t[w..])])
  {
    FindCharIs(t, '$', w, |t|);
  }

  lemma PartsBraced(t: string, w: nat, i: nat, j: nat)
    requires w <= i < |t| && t[i] == '$' && forall k | w <= k < i :: t[k] != '$'
    requires i + 2 <= j <= |t| && t[i + 1] == '{' && (j < |t| ==> t[j] == '}')
    requires forall k | i + 2 <= k < j :: t[k] != '}'
    ensures PartsFrom(t, w) ==
            if j == |t| || PartsFrom(t, j + 1).Unmatched? then Unmatched
            else Template([Literal(t[w..i]), Variable(t[i + 2..j], true)] + PartsFrom(t, j + 1).parts)
  {
    hide FindChar, PartsFrom, BracedFrom;
    FindCharIs(t, '$', w, i);
    FindCharIs(t, '}', i + 2, j);
    PartsAtBrace(t, w, i);
    BraceUnfolds(t, w, i, j);
  }

  lemma PartsAtBrace(t: string, w: nat, i: nat)
    requires w <= i && i + 1 < |t| && i == FindChar(t, '$', w) && t[i + 1] == '{'
    ensures PartsFrom(t, w) == BracedFrom(t, w, i)
  {
    hide FindChar, BracedFrom;
  }

  lemma BraceUnfolds(t: string, w: nat, i: nat, j: nat)
    requires w <= i && i + 1 < |t| && j == FindChar(t, '}', i + 2)
    ensures BracedFrom(t, w, i) ==
            if j == |t| || PartsFrom(t, j + 1).Unmatched? then Unmatched
            else Template([Literal(t[w..i]), Variable(t[i + 2..j], true)] + PartsFrom(t, j + 1).parts)
  {
    hide FindChar, PartsFrom;
  }

  lemma PartsBare(t: string, w: nat, i: nat)
    requires w <= i < |t| && t[i] == '$' && forall k | w <= k < i :: t[k] != '$'
    requires i + 1 == |t| || t[i + 1] != '{'
    ensures PartsFrom(t, w) == Template([Literal(t[w..i]), Variable(t[i + 1..], false)] + [Literal("")])
  {
    hide FindChar;
    FindCharIs(t, '$', w, i);
  }

  /** The parts are the template: written out one after the other they give it back. */
  lemma {:induction false} PartsAreTemplate(t: string, w: nat)
    requires w <= |t| && PartsFrom(t, w).Template?
    ensures SourceOf(PartsFrom(t, w).parts) == t[w..]
    decreases |t| - w
  {
    hide PartsFrom, FindChar, SourceOf;
    var i := FindChar(t, '$', w);
    FindCharSkips(t, '$', w);
    if i == |t| {
      PartsLast(t, w);
      SourceLast(t[w..]);
    } else if i + 1 < |t| && t[i + 1] == '{' {
      var j := FindChar(t, '}', i + 2);
      FindCharSkips(t, '}', i + 2);
      PartsBraced(t, w, i, j);
      PartsAreTemplate(t, j + 1);
      SourceTwo(Literal(t[w..i]), Variable(t[i + 2..j], true), PartsFrom(t, j + 1).parts);
      GlueBraced(t, w, i, j);
    } else {
      PartsBare(t, w, i);
      SourceTwo(Literal(t[w..i]), Variable(t[i + 1..], false), [Literal("")]);
      SourceLast("");
      GlueBare(t, w, i);
    }
  }

  lemma SourceLast(text: string)
    ensures SourceOf([Literal(text)]) == text
  {
    hide SourceOf;
    SourceNone();
    assert [Literal(text)] == [Literal(text)] + [];
    SourceOne(Literal(text), []);
  }

  lemma GlueBraced(t: string, w: nat, i: nat, j: nat)
    requires w <= i && i + 2 <= j < |t| && t[i] == '$' && t[i + 1] == '{' && t[j] == '}'
    ensures t[w..i] + ("${" + t[i + 2..j] + "}" + t[j + 1..]) == t[w..]
  {
    var rest := "${" + t[i + 2..j] + "}" + t[j + 1..];
    assert t[i..] == rest by {
      assert t[i..i + 2] == "${" && t[j..j + 1] == "}";
      assert t[i..] == t[i..i + 2] + t[i + 2..j] + t[j..j + 1] + t[j + 1..];
    }
    assert t[w..] == t[w..i] + t[i..];
  }

  lemma GlueBare(t: string, w: nat, i: nat)
    requires w <= i < |t| && t[i] == '$'
    ensures t[w..i] + ("$" + t[i + 1..] + "") == t[w..]
  {
    assert t[i..] == "$" + t[i + 1..] + "";
    assert t[w..] == t[w..i] + t[i..];
  }

  lemma SourceNone()
    ensures SourceOf([]) == ""
  {
  }

  lemma SourceOne(p: Part, rest: seq<Part>)
    ensures SourceOf([p] + rest) == Source(p) + SourceOf(rest)
  {
    assert ([p] + rest)[1..] == rest;
  }

  lemma SourceTwo(p: Part, q: Part, rest: seq<Part>)
    ensures SourceOf([p, q] + rest) == Source(p) + (Source(q) + SourceOf(rest))
  {
    assert [p, q] + rest == [p] + ([q] + rest);
    SourceOne(p, [q] + rest);
    SourceOne(q, rest);
  }

  /** Parts that are told apart when they are written out: literals and references take turns, a
      literal has no dollar sign, a name in braces no closing brace, and a bare name, which does not
      begin with a brace, comes last. */
  predicate Canonical(parts: seq<Part>) {
    && parts != [] && parts[0].Literal? && '$' !in parts[0].text
    && (|parts| > 1 ==>
          && |parts| > 2 && parts[1].Variable?
          && if parts[1].braced then '}' !in parts[1].name && Canonical(parts[2..])
             else (parts[1].name == "" || parts[1].name[0] != '{') && parts[2..] == [Literal("")])
  }

  /** Canonical parts, written out, are found again. */
  lemma {:induction false} CanonicalIsFound(t: string, w: nat, parts: seq<Part>)
    requires w <= |t| && t[w..] == SourceOf(parts) && Canonical(parts)
    ensures PartsFrom(t, w) == Template(parts)
    decreases |parts|
  {
    hide PartsFrom, SourceOf;
    var text := parts[0].text;
    var i := w + |text|;
    if |parts| == 1 {
      assert parts == [Literal(text)];
      SourceLast(text);
      SliceHas(t, w, text, "");
      PartsLast(t, w);
    } else {
      var v, rest := parts[1], parts[2..];
      assert parts == [Literal(text), v] + rest;
      SourceTwo(Literal(text), v, rest);
      SliceHas(t, w, text, Source(v) + SourceOf(rest));
      if v.braced {
        BracedAt(t, i, v.name, SourceOf(rest));
        CanonicalIsFound(t, i + |v.name| + 3, rest);
        BracedIsFound(t, w, text, v.name, rest);
      } else {
        SourceLast("");
        BareAt(t, i, v.name);
        BareIsFound(t, w, text, v.name);
      }
    }
  }

  lemma BracedIsFound(t: string, w: nat, text: string, name: string, rest: seq<Part>)
    requires var i := w + |text|;
             var j := i + 2 + |name|;
             && j < |t| && t[w..i] == text && '$' !in text && (forall k | w <= k < i :: t[k] in text)
             && t[i] == '$' && t[i + 1] == '{' && t[j] == '}' && t[i + 2..j] == name
             && (forall k | i + 2 <= k < j :: t[k] != '}')
             && PartsFrom(t, j + 1) == Template(rest)
    ensures PartsFrom(t, w) == Template([Literal(text), Variable(name, true)] + rest)
  {
    hide PartsFrom;
    PartsBraced(t, w, w + |text|, w + |text| + 2 + |name|);
  }

  lemma BareIsFound(t: string, w: nat, text: string, name: string)
    requires var i := w + |text|;
             && i < |t| && t[w..i] == text && '$' !in text && (forall k | w <= k < i :: t[k] in text)
             && t[i] == '$' && t[i + 1..] == name && (i + 1 == |t| || t[i + 1] != '{')
    ensures PartsFrom(t, w) == Template([Literal(text), Variable(name, false)] + [Literal("")])
  {
    hide PartsFrom;
    PartsBare(t, w, w + |text|);
  }

  lemma SliceHas(t: string, w: nat, a: string, b: string)
    requires w <= |t| && t[w..] == a + b
    ensures w + |a| <= |t| && t[w..w + |a|] == a && t[w + |a|..] == b
    ensures forall k | w <= k < w + |a| :: t[k] in a
  {
    assert t[w..][..|a|] == a && t[w..][|a|..] == b;
    assert forall k | w <= k < w + |a| :: t[k] == a[k - w];
  }

  lemma BracedAt(t: string, i: nat, name: string, rest: string)
    requires i <= |t| && t[i..] == "${" + name + "}" + rest && '}' !in name
    ensures var j := i + 2 + |name|;
            && j < |t| && t[i] == '$' && t[i + 1] == '{' && t[j] == '}' && t[i + 2..j] == name && t[j + 1..] == rest
            && forall k | i + 2 <= k < j :: t[k] != '}'
  {
    assert t[i..] == "${" + (name + ("}" + rest));
    SliceHas(t, i, "${", name + ("}" + rest));
    SliceHas(t, i + 2, name, "}" + rest);
    SliceHas(t, i + 2 + |name|, "}", rest);
  }

  lemma BareAt(t: string, i: nat, name: string)
    requires i <= |t| && t[i..] == "$" + name + "" && (name == "" || name[0] != '{')
    ensures i < |t| && t[i] == '$' && t[i + 1..] == name && (i + 1 == |t| || t[i + 1] != '{')
  {
    assert t[i..] == "$" + name;
    SliceHas(t, i, "$", name);
    assert name != "" ==> t[i + 1] == t[i + 1..][0];
  }

  lemma {:induction false} FoundIsCanonical(t: string, w: nat)
    requires w <= |t| && PartsFrom(t, w).Template?
    ensures Canonical(PartsFrom(t, w).parts)
    decreases |t| - w
  {
    hide PartsFrom, FindChar;
    var i := FindChar(t, '$', w);
    FindCharSkips(t, '$', w);
    assert '$' !in t[w..i];
    if i == |t| {
      PartsLast(t, w);
      assert t[w..] == t[w..i];
    } else if i + 1 < |t| && t[i + 1] == '{' {
      var j := FindChar(t, '}', i + 2);
      FindCharSkips(t, '}', i + 2);
      PartsBraced(t, w, i, j);
      FoundIsCanonical(t, j + 1);
      var parts := PartsFrom(t, w).parts;
      assert parts[2..] == PartsFrom(t, j + 1).parts;
      assert '}' !in t[i + 2..j];
    } else {
      PartsBare(t, w, i);
      assert i + 1 < |t| ==> t[i + 1..][0] == t[i + 1];
    }
  }

  /** The parts found in a template are the only canonical ones that give it when they are written
      out. */
  lemma TemplateIff(t: string, parts: seq<Part>)
    ensures PartsFrom(t, 0) == Template(parts) <==> Canonical(parts) && SourceOf(parts) == t
  {
    hide PartsFrom, SourceOf, Canonical;
    assert t[0..] == t;
    if PartsFrom(t, 0) == Template(parts) {
      FoundIsCanonical(t, 0);
      PartsAreTemplate(t, 0);
    } else if Canonical(parts) && SourceOf(parts) == t {
      CanonicalIsFound(t, 0, parts);
    }
  }

  /** A template is refused exactly if no parts give it. */
  lemma UnmatchedIff(t: string)
    ensures PartsFrom(t, 0).Unmatched? <==> !exists parts: seq<Part> :: Canonical(parts) && SourceOf(parts) == t
  {
    hide PartsFrom, SourceOf, Canonical;
    if PartsFrom(t, 0).Template? {
      TemplateIff(t, PartsFrom(t, 0).parts);
    }
    if parts: seq<Part> :| Canonical(parts) && SourceOf(parts) == t {
      TemplateIff(t, parts);
    }
  }

  /** What is left of literal text by a search that also stops at back-quotes: everything up to
      the last back-quote is lost. */
  function AfterTick(s: string): (r: string)
    ensures |r| <= |s| && (|r| == |s| ==> r == s)
  {
    if '`' !in s then s else AfterTick(s[1..])
  }

  type Lookup = string -> string

  /** The value of a part; `exact` keeps literal text as it is. */
  function Value(p: Part, lookup: Lookup, exact: bool): string {
    match p
    case Literal(text) => if exact then text else AfterTick(text)
    case Variable(name, _) => lookup(name)
  }

  /** The values of the parts, in order.  Values are not looked at again. */
  function Values(parts: seq<Part>, lookup: Lookup, exact: bool): string {
    if parts == [] then "" else Value(parts[0], lookup, exact) + Values(parts[1..], lookup, exact)
  }

  lemma ValuesNone(lookup: Lookup)
    ensures Values([], lookup, false) == ""
  {
  }

  lemma ValuesOne(p: Part, rest: seq<Part>, lookup: Lookup, exact: bool)
    ensures Values([p] + rest, lookup, exact) == Value(p, lookup, exact) + Values(rest, lookup, exact)
  {
    assert ([p] + rest)[1..] == rest;
  }

  lemma ValuesTwo(p: Part, q: Part, rest: seq<Part>, lookup: Lookup, exact: bool)
    ensures Values([p, q] + rest, lookup, exact) ==
            Value(p, lookup, exact) + Value(q, lookup, exact) + Values(rest, lookup, exact)
  {
    assert [p, q] + rest == [p] + ([q] + rest);
    ValuesOne(p, [q] + rest, lookup, exact);
    ValuesOne(q, rest, lookup, exact);
  }

  /** What nsh_argexpand returns for a template that has no unmatched brace. */
  function Expanded(t: string, parts: seq<Part>, lookup: Lookup): string {
    if |parts| == 1 then t else Values(parts, lookup, false)
  }

  ghost predicate HasTick(parts: seq<Part>) {
    exists p | p in parts :: p.Literal? && '`' in p.text
  }

  lemma {:induction false} TicksShorten(parts: seq<Part>, lookup: Lookup)
    ensures |Values(parts, lookup, false)| <= |Values(parts, lookup, true)|
    ensures !HasTick(parts) ==> Values(parts, lookup, false) == Values(parts, lookup, true)
    ensures HasTick(parts) ==> |Values(parts, lookup, false)| < |Values(parts, lookup, true)|
    decreases |parts|
  {
    if parts != [] {
      TicksShorten(parts[1..], lookup);
      assert HasTick(parts) <==> HasTick(parts[1..]) || (parts[0].Literal? && '`' in parts[0].text) by {
        assert parts == [parts[0]] + parts[1..];
      }
      if parts[0].Literal? && '`' in parts[0].text {
        TickIsLost(parts[0].text);
      }
    }
  }

  lemma {:induction false} TickIsLost(s: string)
    requires '`' in s
    ensures |AfterTick(s)| < |s|
  {
  }

  /** Expansion is substitution, each literal and each value in the order of the template,
      exactly if nothing is expanded or no literal part has a back-quote. */
  lemma ExpansionIsSubstitution(t: string, lookup: Lookup)
    requires PartsFrom(t, 0).Template?
    ensures var parts := PartsFrom(t, 0).parts;
            Expanded(t, parts, lookup) == Values(parts, lookup, true) <==> |parts| == 1 || !HasTick(parts)
  {
    var parts := PartsFrom(t, 0).parts;
    TicksShorten(parts, lookup);
    if |parts| == 1 {
      PartsAreTemplate(t, 0);
      assert parts == [parts[0]] + [];
      SourceOne(parts[0], []);
      ValuesOne(parts[0], [], lookup, true);
      assert t[0..] == t;
    }
  }

  /** Text without '$' is unchanged. */
  lemma NoDollarUnchanged(t: string, lookup: Lookup)
    requires '$' !in t
    ensures PartsFrom(t, 0) == Template([Literal(t)]) && Expanded(t, PartsFrom(t, 0).parts, lookup) == t
  {
    assert t[0..] == t;
  }

  // ----- The code -----

  /** While the search stops at a back-quote, nsh_argexpand skips one character. */
  lemma SkipOne(t: string, w: nat, q: nat, lookup: Lookup)
    requires w <= q < |t| && t[q] == '`' && forall k | w <= k < q :: t[k] != '$'
    ensures PartsFrom(t, w).Unmatched? == PartsFrom(t, w + 1).Unmatched?
    ensures PartsFrom(t, w).Template? ==>
              && |PartsFrom(t, w).parts| == |PartsFrom(t, w + 1).parts|
              && Values(PartsFrom(t, w).parts, lookup, false) == Values(PartsFrom(t, w + 1).parts, lookup, false)
  {
    hide FindChar, PartsFrom, Values, AfterTick;
    var i := FindChar(t, '$', w);
    FindCharSkips(t, '$', w);
    FindCharIs(t, '$', w + 1, i);
    LosesTick(t, w, q, i);
    var a, b := Literal(t[w..i]), Literal(t[w + 1..i]);
    if i == |t| {
      PartsLast(t, w);
      PartsLast(t, w + 1);
      assert t[w..] == t[w..i] && t[w + 1..] == t[w + 1..i];
      SameFirstValue(a, b, [], lookup);
      assert [a] + [] == [a] && [b] + [] == [b];
    } else if i + 1 < |t| && t[i + 1] == '{' {
      var j := FindChar(t, '}', i + 2);
      FindCharSkips(t, '}', i + 2);
      PartsBraced(t, w, i, j);
      PartsBraced(t, w + 1, i, j);
      if j < |t| && PartsFrom(t, j + 1).Template? {
        var v, rest := Variable(t[i + 2..j], true), PartsFrom(t, j + 1).parts;
        SameFirstValue(a, b, [v] + rest, lookup);
        assert [a, v] + rest == [a] + ([v] + rest) && [b, v] + rest == [b] + ([v] + rest);
      }
    } else {
      PartsBare(t, w, i);
      PartsBare(t, w + 1, i);
      var v := Variable(t[i + 1..], false);
      SameFirstValue(a, b, [v, Literal("")], lookup);
      assert [a, v] + [Literal("")] == [a] + [v, Literal("")] && [b, v] + [Literal("")] == [b] + [v, Literal("")];
    }
  }

  lemma LosesTick(t: string, w: nat, q: nat, i: nat)
    requires w <= q < i <= |t| && t[q] == '`'
    ensures AfterTick(t[w..i]) == AfterTick(t[w + 1..i])
  {
    var a := t[w..i];
    assert a[q - w] == '`' && a[1..] == t[w + 1..i];
  }

  lemma SameFirstValue(a: Part, b: Part, rest: seq<Part>, lookup: Lookup)
    requires a.Literal? && b.Literal? && AfterTick(a.text) == AfterTick(b.text)
    ensures Values([a] + rest, lookup, false) == Values([b] + rest, lookup, false)
  {
    hide AfterTick;
    ValuesOne(a, rest, lookup, false);
    ValuesOne(b, rest, lookup, false);
  }

  /** Parts from w on, said in terms of parts from `next` on: the values between are `text`. */
  ghost predicate Continues(t: string, w: nat, text: string, next: nat, lookup: Lookup)
    requires w <= |t| && next <= |t|
  {
    && PartsFrom(t, w).Unmatched? == PartsFrom(t, next).Unmatched?
    && (PartsFrom(t, w).Template? ==>
          && |PartsFrom(t, w).parts| > 1
          && Values(PartsFrom(t, w).parts, lookup, false) == text + Values(PartsFrom(t, next).parts, lookup, false))
  }

  lemma TakeBraced(t: string, w: nat, i: nat, j: nat, lookup: Lookup)
    requires w <= i < |t| && t[i] == '$' && forall k | w <= k < i :: t[k] != '$' && t[k] != '`'
    requires i + 2 <= j <= |t| && t[i + 1] == '{' && (j < |t| ==> t[j] == '}')
    requires forall k | i + 2 <= k < j :: t[k] != '}'
    ensures j == |t| ==> PartsFrom(t, w).Unmatched?
    ensures j < |t| ==> Continues(t, w, t[w..i] + lookup(t[i + 2..j]), j + 1, lookup)
  {
    hide PartsFrom, Values;
    PartsBraced(t, w, i, j);
    assert AfterTick(t[w..i]) == t[w..i];
    if j < |t| && PartsFrom(t, j + 1).Template? {
      ValuesTwo(Literal(t[w..i]), Variable(t[i + 2..j], true), PartsFrom(t, j + 1).parts, lookup, false);
    }
  }

  lemma TakeBare(t: string, w: nat, i: nat, lookup: Lookup)
    requires w <= i < |t| && t[i] == '$' && forall k | w <= k < i :: t[k] != '$' && t[k] != '`'
    requires i + 1 == |t| || t[i + 1] != '{'
    ensures Continues(t, w, t[w..i] + lookup(t[i + 1..|t|]), |t|, lookup)
  {
    hide PartsFrom, Values;
    PartsBare(t, w, i);
    PartsLast(t, |t|);
    assert AfterTick(t[w..i]) == t[w..i];
    assert t[|t|..] == "" && t[i + 1..] == t[i + 1..|t|];
    ValuesTwo(Literal(t[w..i]), Variable(t[i + 1..], false), [Literal("")], lookup, false);
  }

  method FindInBuffer(buf: array<char>, i: nat, stop: set<char>, ghost t: string) returns (q: nat)
    requires i <= |t| < buf.Length && buf[|t|] == '\0'
    requires forall k | i <= k < |t| :: buf[k] == t[k] && t[k] != '\0'
    ensures i <= q <= |t|
    ensures forall k | i <= k < q :: t[k] !in stop
    ensures q < |t| ==> t[q] in stop
  {
    q := i;
    while buf[q] != '\0' && buf[q] !in stop
      invariant i <= q <= |t|
      invariant forall k | i <= k < q :: t[k] !in stop
      decreases |t| - q
    {
      q := q + 1;
    }
  }

  /** The expansion of the whole template is what has been built up and what is still to come. */
  ghost predicate Expanding(t: string, working: nat, arg: string, isenvvar: bool, lookup: Lookup) {
    && working <= |t|
    && var whole := PartsFrom(t, 0);
       var rest := PartsFrom(t, working);
       && whole.Unmatched? == rest.Unmatched?
       && (whole.Template? ==>
             && Values(whole.parts, lookup, false) == arg + Values(rest.parts, lookup, false)
             && (|whole.parts| > 1 <==> isenvvar || |rest.parts| > 1))
  }

  lemma ExpandsOn(t: string, w: nat, arg: string, isenvvar: bool, text: string, next: nat, lookup: Lookup)
    requires next <= |t| && Expanding(t, w, arg, isenvvar, lookup) && Continues(t, w, text, next, lookup)
    ensures Expanding(t, next, arg + text, true, lookup)
  {
    hide PartsFrom, Values;
    if PartsFrom(t, w).Template? {
      var rest := Values(PartsFrom(t, next).parts, lookup, false);
      assert arg + (text + rest) == (arg + text) + rest;
    }
  }

  lemma ExpandsPast(t: string, w: nat, q: nat, arg: string, isenvvar: bool, lookup: Lookup)
    requires w <= q < |t| && t[q] == '`' && forall k | w <= k < q :: t[k] != '$'
    requires Expanding(t, w, arg, isenvvar, lookup)
    ensures Expanding(t, w + 1, arg, isenvvar, lookup)
  {
    hide PartsFrom, Values;
    SkipOne(t, w, q, lookup);
  }

  lemma ExpandsLast(t: string, w: nat, arg: string, isenvvar: bool, lookup: Lookup)
    requires Expanding(t, w, arg, isenvvar, lookup) && forall k | w <= k < |t| :: t[k] != '$' && t[k] != '`'
    ensures var whole := PartsFrom(t, 0);
            && whole.Template? && isenvvar == (|whole.parts| > 1)
            && (isenvvar ==> Expanded(t, whole.parts, lookup) == arg + t[w..])
            && (!isenvvar ==> Expanded(t, whole.parts, lookup) == t)
  {
    hide PartsFrom, Values;
    TakeRest(t, w, lookup);
  }

  /** The first reference of a template, if it has one, is not an unclosed brace. */
  predicate FirstIsComplete(t: string) {
    var i := FindChar(t, '$', 0);
    i < |t| && (i + 1 < |t| && t[i + 1] == '{' ==> FindChar(t, '}', i + 2) < |t|)
  }

  lemma NoReference(t: string)
    requires forall k | 0 <= k < |t| :: t[k] != '$'
    ensures !FirstIsComplete(t)
  {
    FindCharIs(t, '$', 0, |t|);
  }

  lemma CompleteIffReference(t: string)
    requires PartsFrom(t, 0).Template?
    ensures FirstIsComplete(t) <==> |PartsFrom(t, 0).parts| > 1
  {
    hide PartsFrom, FindChar;
    var i := FindChar(t, '$', 0);
    FindCharSkips(t, '$', 0);
    if i == |t| {
      PartsLast(t, 0);
    } else if i + 1 < |t| && t[i + 1] == '{' {
      FindCharSkips(t, '}', i + 2);
      PartsBraced(t, 0, i, FindChar(t, '}', i + 2));
    } else {
      PartsBare(t, 0, i);
    }
  }

  /** The first dollar sign is at q; its reference ends before `next`, or nowhere if that is 0. */
  lemma FirstReference(t: string, q: nat, next: nat)
    requires q < |t| && t[q] == '$' && (forall k | 0 <= k < q :: t[k] != '$') && next <= |t|
    requires if q + 1 < |t| && t[q + 1] == '{' then
               if next == 0 then forall k | q + 2 <= k < |t| :: t[k] != '}' else q + 2 < next && t[next - 1] == '}'
             else next == |t|
    ensures FirstIsComplete(t) <==> next > 0
  {
    FindCharIs(t, '$', 0, q);
    if q + 1 < |t| && t[q + 1] == '{' {
      FindCharSkips(t, '}', q + 2);
    }
  }

  /** nsh_argexpand: the argument is built up by concatenation while the template is cut into
      pieces in place; `isenvvar` tells whether any variable was expanded. */
  method ArgExpand(buf: array<char>, lookup: Lookup) returns (arg: string, isenvvar: bool, failed: bool)
    requires '\0' in buf[..]
    modifies buf
    ensures var t := CString(old(buf[..]));
            var r := PartsFrom(t, 0);
            && failed == r.Unmatched?
            && (failed ==> arg == "")
            && (!failed ==> arg == Expanded(t, r.parts, lookup) && isenvvar == (|r.parts| > 1))
            && isenvvar == FirstIsComplete(t)
  {
    hide PartsFrom, Expanding, Continues, CString, FirstIsComplete;
    ghost var t := CString(buf[..]);
    var working := 0;
    arg, isenvvar, failed := "", false, false;
    ExpandsFirst(t, lookup);
    while true
      invariant 0 <= working <= |t| < buf.Length && buf[|t|] == '\0'
      invariant forall k | working <= k < |t| :: buf[k] == t[k] && t[k] != '\0'
      invariant !isenvvar ==> buf[..] == old(buf[..]) && forall k | 0 <= k < working :: t[k] != '$'
      invariant isenvvar ==> FirstIsComplete(t)
      invariant Expanding(t, working, arg, isenvvar, lookup)
      invariant !failed
      decreases |t| - working
    {
      var q := FindInBuffer(buf, working, {'`', '$'}, t);
      if buf[q] == '\0' {
        if !isenvvar {
          NoReference(t);
        }
        ExpandsLast(t, working, arg, isenvvar, lookup);
        if isenvvar {
          TextAt(buf[..], working, t, |t|);
          assert t[working..|t|] == t[working..];
          arg := arg + CString(buf[working..]);
        } else {
          arg := CString(buf[..]);
        }
        return;
      } else if buf[q] == '$' {
        buf[q] := '\0';
        TextAt(buf[..], working, t, q);
        var text := CString(buf[working..]);
        var name, next := TakeName(buf, q, t);
        if buf[q + 1] == '{' {
          TakeBraced(t, working, q, if next == 0 then |t| else next - 1, lookup);
        } else {
          TakeBare(t, working, q, lookup);
        }
        if !isenvvar {
          FirstReference(t, q, next);
        }
        if next == 0 {
          UnmatchedStays(t, working, arg, isenvvar, lookup);
          return "", isenvvar, true;
        }
        text := text + lookup(name);
        ExpandsOn(t, working, arg, isenvvar, text, next, lookup);
        arg := arg + text;
        isenvvar := true;
        working := next;
      } else {
        ExpandsPast(t, working, q, arg, isenvvar, lookup);
        working := working + 1;
      }
    }
  }

  lemma ExpandsFirst(t: string, lookup: Lookup)
    ensures Expanding(t, 0, "", false, lookup)
  {
    hide PartsFrom, Values;
  }

  lemma UnmatchedStays(t: string, w: nat, arg: string, isenvvar: bool, lookup: Lookup)
    requires Expanding(t, w, arg, isenvvar, lookup) && PartsFrom(t, w).Unmatched?
    ensures PartsFrom(t, 0).Unmatched?
  {
  }

  /** The name after the dollar sign at q, and where to go on; 0 if its brace is not closed. */
  method TakeName(buf: array<char>, q: nat, ghost t: string) returns (name: string, next: nat)
    requires q < |t| < buf.Length && buf[|t|] == '\0'
    requires forall k | q < k < |t| :: buf[k] == t[k] && t[k] != '\0'
    modifies buf
    ensures buf[q + 1] == old(buf[q + 1])
    ensures buf[|t|] == '\0' && forall k | next <= k < |t| && next > 0 :: buf[k] == t[k]
    ensures if buf[q + 1] == '{' then
              if next == 0 then forall k | q + 2 <= k < |t| :: t[k] != '}'
              else
                && q + 2 < next <= |t| && t[next - 1] == '}' && (forall k | q + 2 <= k < next - 1 :: t[k] != '}')
                && name == t[q + 2..next - 1]
            else
              next == |t| && name == t[q + 1..|t|]
  {
    hide CString;
    var start := q + 1;
    if buf[start] == '{' {
      start := start + 1;
      var end := FindInBuffer(buf, start, {'}'}, t);
      if buf[end] == '\0' {
        return "", 0;
      }
      buf[end] := '\0';
      TextAt(buf[..], start, t, end);
      return CString(buf[start..]), end + 1;
    } else {
      var end := FindInBuffer(buf, start, {}, t);
      TextAt(buf[..], start, t, end);
      return CString(buf[start..]), end;
    }
  }

  lemma TakeRest(t: string, w: nat, lookup: Lookup)
    requires w <= |t| && forall k | w <= k < |t| :: t[k] != '$' && t[k] != '`'
    ensures PartsFrom(t, w) == Template([Literal(t[w..])])
    ensures Values(PartsFrom(t, w).parts, lookup, false) == t[w..]
  {
    hide PartsFrom;
    PartsLast(t, w);
    assert '`' !in t[w..];
    assert [Literal(t[w..])] == [Literal(t[w..])] + [];
    ValuesOne(Literal(t[w..]), [], lookup, false);
  }
}
