/** The NSH variables: a byte buffer of NUL-terminated `name=value` strings, which behaves as a
    finite map as long as no name with an equals sign comes in the way. */
module Vars {

  datatype Entry = Entry(name: string, value: string)

  datatype Option<T> = None | Some(value: T)

  /** A C string. */
  predicate NulFree(s: string) {
    '\0' !in s
  }

  predicate GoodName(name: string) {
    '=' !in name && NulFree(name)
  }

  /** What is in the buffer: an entry is cut at its first equals sign. */
  predicate GoodEntry(e: Entry) {
    GoodName(e.name) && NulFree(e.value)
  }

  ghost predicate AllGood(es: seq<Entry>) {
    forall e | e in es :: GoodEntry(e)
  }

  /** The text of an entry, without its NUL. */
  function Pair(e: Entry): string {
    e.name + "=" + e.value
  }

  /** The bytes of the buffer that holds these entries. */
  function Encode(es: seq<Entry>): seq<char> {
    if es == [] then [] else Pair(es[0]) + ['\0'] + Encode(es[1..])
  }

  predicate DistinctNames(es: seq<Entry>) {
    forall i, j | 0 <= i < j < |es| :: es[i].name != es[j].name
  }

  ghost predicate GoodEntries(es: seq<Entry>) {
    AllGood(es) && DistinctNames(es)
  }

  // ----- Names with an equals sign -----

  /** The part of a name before its first equals sign. */
  function NameOf(name: string): (n: string)
    ensures n <= name && '=' !in n
    ensures n != name ==> |n| < |name| && name[|n|] == '='
    ensures '=' !in name ==> n == name
  {
    if name == "" || name[0] == '=' then "" else [name[0]] + NameOf(name[1..])
  }

  /** The entry that `name=value` is, cut at its first equals sign. */
  function Stored(name: string, value: string): Entry {
    var n := NameOf(name);
    if n == name then Entry(name, value) else Entry(n, name[|n| + 1..] + "=" + value)
  }

  lemma StoredPair(name: string, value: string)
    ensures Pair(Stored(name, value)) == name + "=" + value
    ensures NulFree(name) && NulFree(value) ==> GoodEntry(Stored(name, value))
    ensures Stored(name, value).name == NameOf(name)
  {
    hide NameOf;
    var n := NameOf(name);
    if n != name {
      var more := name[|n| + 1..];
      assert name == n + "=" + more;
      Reassociate(n, more, value);
      assert forall c | c in more :: c in name;
      assert NulFree(more) && NulFree(value) ==> NulFree(more + "=" + value);
    }
  }

  lemma Reassociate(n: string, more: string, value: string)
    ensures (n + "=" + more) + "=" + value == n + "=" + (more + "=" + value)
  {
  }

  /** What nsh_cmpname looks for. */
  predicate Matches(e: Entry, name: string) {
    name + "=" <= Pair(e)
  }

  /** An entry can match only names that begin with its own. */
  lemma MatchesName(e: Entry, name: string)
    requires GoodEntry(e)
    ensures Matches(e, name) ==> e.name == NameOf(name)
    ensures '=' !in name ==> (Matches(e, name) <==> e.name == name)
  {
    hide NameOf;
    var n := NameOf(name);
    if Matches(e, name) {
      var text := name + "=";
      assert text[|n|] == '=' && Pair(e)[|n|] == text[|n|];
      assert forall i | 0 <= i < |n| :: n[i] == text[i] == Pair(e)[i];
      PairClean(e);
      assert forall i | 0 <= i < |n| :: Pair(e)[i] != '=';
      FirstIsUnique(Pair(e), '=', |n|, |e.name|);
      assert n == Pair(e)[..|n|] == e.name;
    }
  }

  /** A name with an equals sign matches exactly the entry of its part before the first one, if the
      value goes on with the rest of the name and another equals sign. */
  lemma MatchesIff(e: Entry, name: string)
    requires GoodEntry(e) && '=' in name
    ensures var n := NameOf(name);
            n != name && (Matches(e, name) <==> e.name == n && name[|n| + 1..] + "=" <= e.value)
  {
    hide NameOf;
    var n := NameOf(name);
    var more := name[|n| + 1..];
    assert name == n + "=" + more;
    var text := n + "=" + (more + "=");
    assert name + "=" == text;
    MatchesName(e, name);
    if e.name == n {
      assert Pair(e) == n + "=" + e.value;
      PrefixAfter(n + "=", more + "=", e.value);
    }
  }

  lemma PrefixAfter(a: string, b: string, c: string)
    ensures a + b <= a + c <==> b <= c
  {
    if a + b <= a + c {
      assert b == (a + b)[|a|..] && c == (a + c)[|a|..];
      assert (a + c)[..|a + b|] == a + b;
      assert c[..|b|] == (a + c)[|a|..|a + b|] == b;
    }
    if b <= c {
      assert c == b + c[|b|..];
      assert a + c == (a + b) + c[|b|..];
    }
  }

  // ----- Variables as a list of entries, oldest set first -----

  /** The position of the first entry that matches a name, or the length of the list. */
  function Index(es: seq<Entry>, name: string): (k: nat)
    ensures k <= |es|
    ensures forall i | 0 <= i < k :: !Matches(es[i], name)
    ensures k < |es| ==> Matches(es[k], name)
  {
    if es == [] || Matches(es[0], name) then 0 else 1 + Index(es[1..], name)
  }

  function Lookup(es: seq<Entry>, name: string): Option<string> {
    var k := Index(es, name);
    if k < |es| then Some(es[k].value) else None
  }

  function Without(es: seq<Entry>, name: string): seq<Entry> {
    var k := Index(es, name);
    if k < |es| then es[..k] + es[k + 1..] else es
  }

  /** One change of the variables; a set may run out of memory after it has removed the old
      value. */
  datatype Change = Set(name: string, value: string, fits: bool) | Unset(name: string)

  predicate GoodChange(c: Change) {
    NulFree(c.name) && (c.Set? ==> NulFree(c.value))
  }

  function Apply(es: seq<Entry>, c: Change): seq<Entry> {
    match c
    case Set(name, value, fits) => Without(es, name) + if fits then [Stored(name, value)] else []
    case Unset(name) => Without(es, name)
  }

  function ApplyAll(es: seq<Entry>, cs: seq<Change>): seq<Entry> {
    if cs == [] then es else Apply(ApplyAll(es, cs[..|cs| - 1]), cs[|cs| - 1])
  }

  lemma IndexIs(es: seq<Entry>, name: string, k: nat)
    requires k <= |es| && (k < |es| ==> Matches(es[k], name))
    requires forall i | 0 <= i < k :: !Matches(es[i], name)
    ensures Index(es, name) == k
  {
  }

  /** Where a name without equals sign is. */
  lemma IndexByName(es: seq<Entry>, name: string)
    requires AllGood(es) && '=' !in name
    ensures forall i | 0 <= i < Index(es, name) :: es[i].name != name
    ensures Index(es, name) < |es| ==> es[Index(es, name)].name == name
  {
    forall i | 0 <= i < |es|
      ensures Matches(es[i], name) <==> es[i].name == name
    {
      MatchesName(es[i], name);
    }
  }

  lemma NameIndexIs(es: seq<Entry>, name: string, k: nat)
    requires AllGood(es) && '=' !in name
    requires k <= |es| && (k < |es| ==> es[k].name == name) && forall i | 0 <= i < k :: es[i].name != name
    ensures Index(es, name) == k
  {
    hide Index, Matches;
    IndexByName(es, name);
  }

  /** A name finds what the part before its first equals sign finds, or nothing. */
  lemma LookupByName(es: seq<Entry>, name: string)
    requires GoodEntries(es)
    ensures Lookup(es, name).Some? ==>
              && Index(es, name) == Index(es, NameOf(name)) && Lookup(es, name) == Lookup(es, NameOf(name))
  {
    hide Matches, NameOf;
    var k := Index(es, name);
    if k < |es| {
      MatchesName(es[k], name);
      NameIndexIs(es, NameOf(name), k);
    }
  }

  /** Removing a name removes it and nothing else. */
  lemma WithoutLookup(es: seq<Entry>, name: string, other: string)
    requires GoodEntries(es) && '=' !in other
    ensures GoodEntries(Without(es, name))
    ensures Lookup(Without(es, name), other) ==
            if other == NameOf(name) && Lookup(es, name).Some? then None else Lookup(es, other)
  {
    hide Matches, NameOf, Index, GoodEntry;
    var k := Index(es, name);
    var rest := Without(es, name);
    WithoutKeepsGood(es, name);
    IndexByName(es, other);
    var j := Index(es, other);
    if k < |es| {
      MatchesName(es[k], name);
      if other == es[k].name {
        NameIndexIs(rest, other, |rest|);
      } else {
        NameIndexIs(rest, other, if j > k then j - 1 else j);
      }
    }
  }

  lemma WithoutKeepsGood(es: seq<Entry>, name: string)
    requires GoodEntries(es)
    ensures GoodEntries(Without(es, name))
  {
    hide Matches, Index, GoodEntry;
  }

  lemma AppendLookup(es: seq<Entry>, e: Entry, other: string)
    requires AllGood(es) && GoodEntry(e) && '=' !in other && Lookup(es, e.name).None?
    ensures Lookup(es + [e], other) == if other == e.name then Some(e.value) else Lookup(es, other)
  {
    hide Matches, Index;
    IndexByName(es, other);
    IndexByName(es, e.name);
    var j := Index(es, other);
    if j < |es| {
      NameIndexIs(es + [e], other, j);
    } else {
      NameIndexIs(es + [e], other, if other == e.name then |es| else |es| + 1);
    }
  }

  lemma AppendKeepsDistinctIff(es: seq<Entry>, e: Entry)
    requires GoodEntries(es) && GoodEntry(e)
    ensures GoodEntries(es + [e]) <==> Lookup(es, e.name).None?
  {
    hide Matches, Index;
    IndexByName(es, e.name);
    var k := Index(es, e.name);
    if k < |es| {
      assert (es + [e])[k].name == (es + [e])[|es|].name;
    } else {
      assert forall i | 0 <= i < |es| :: es[i].name != e.name;
    }
  }

  // ----- Searching for a name -----

  /** The character of a C string at i, its NUL included. */
  function CharAt(s: string, i: nat): char
    requires i <= |s|
  {
    if i < |s| then s[i] else '\0'
  }

  /** The loop of nsh_cmpname goes on while two characters agree.  It ends inside both strings if
      they differ somewhere, at the latest at the NUL of one of them. */
  ghost predicate EndsInside(a: string, b: string) {
    exists i: nat :: i <= |a| && i <= |b| && CharAt(a, i) != CharAt(b, i)
  }

  /** A comparison ends inside both strings exactly if they are not the same. */
  lemma CompareEndsIff(a: string, b: string)
    requires NulFree(a) && NulFree(b)
    ensures EndsInside(a, b) <==> a != b
  {
    if a != b {
      var i := FirstDifference(a, b);
      assert i < |a| ==> a[i] in a;
      assert i < |b| ==> b[i] in b;
      assert CharAt(a, i) != CharAt(b, i);
    }
  }

  /** The length of the longest common prefix. */
  function FirstDifference(a: string, b: string): (i: nat)
    ensures i <= |a| && i <= |b| && a[..i] == b[..i]
    ensures i < |a| && i < |b| ==> a[i] != b[i]
    ensures a != b ==> i < |a| || i < |b|
  {
    if a == "" || b == "" || a[0] != b[0] then 0
    else
      assert a == [a[0]] + a[1..] && b == [b[0]] + b[1..];
      1 + FirstDifference(a[1..], b[1..])
  }

  datatype Outcome = Overrun | Found(k: nat) | Missing

  /** nsh_findvar: compare the name with one entry after the other, until one matches; `Overrun`
      means that a comparison does not end inside its two strings. */
  ghost function Search(es: seq<Entry>, name: string): Outcome {
    if es == [] then Missing
    else if !EndsInside(name, Pair(es[0])) then Overrun
    else if Matches(es[0], name) then Found(0)
    else
      match Search(es[1..], name)
      case Found(k) => Found(k + 1)
      case r => r
  }

  ghost predicate SearchEnds(es: seq<Entry>, name: string) {
    Search(es, name) != Overrun
  }

  /** No entry up to the first that matches the name is the very text of the name. */
  predicate Comparable(es: seq<Entry>, name: string) {
    forall i | 0 <= i < |es| && i <= Index(es, name) :: Pair(es[i]) != name
  }

  /** Every comparison of a search ends inside exactly if no entry it comes to is the name itself;
      then the search finds the first entry that matches. */
  lemma {:induction false} SearchIs(es: seq<Entry>, name: string)
    requires AllGood(es) && NulFree(name)
    ensures SearchEnds(es, name) <==> Comparable(es, name)
    ensures SearchEnds(es, name) ==>
              Search(es, name) == if Index(es, name) < |es| then Found(Index(es, name)) else Missing
  {
    hide Pair, Matches, EndsInside;
    if es != [] {
      PairClean(es[0]);
      CompareEndsIff(name, Pair(es[0]));
      ComparableUnfolds(es, name);
      if name != Pair(es[0]) && !Matches(es[0], name) {
        SearchIs(es[1..], name);
      }
    }
  }

  lemma ComparableUnfolds(es: seq<Entry>, name: string)
    requires es != []
    ensures Comparable(es, name) <==>
            Pair(es[0]) != name && (Matches(es[0], name) || Comparable(es[1..], name))
  {
    hide Pair, Matches;
    if !Matches(es[0], name) {
      assert Index(es, name) == 1 + Index(es[1..], name);
      assert forall i | 0 <= i < |es| - 1 :: es[1..][i] == es[i + 1];
      assert forall i | 1 <= i < |es| && i <= Index(es, name) :: es[i] == es[1..][i - 1];
    }
  }

  /** The name is the text of an entry: it has an equals sign, and the part before the first one is
      set to the part after it. */
  predicate IsText(es: seq<Entry>, name: string) {
    var n := NameOf(name);
    n != name && Lookup(es, n) == Some(name[|n| + 1..])
  }

  /** A search ends exactly if the name is not the text of an entry. */
  lemma SearchEndsIff(es: seq<Entry>, name: string)
    requires GoodEntries(es) && NulFree(name)
    ensures SearchEnds(es, name) <==> !IsText(es, name)
  {
    hide Matches, NameOf, Index, Search, Pair;
    SearchIs(es, name);
    var n := NameOf(name);
    if IsText(es, name) {
      var k := Index(es, n);
      IndexByName(es, n);
      TextIs(es[k], name);
      LookupByName(es, name);
      TextDoesNotMatch(es[k], name);
      assert Index(es, name) >= k;
    }
    forall i | 0 <= i < |es| && Pair(es[i]) == name
      ensures IsText(es, name)
    {
      TextIs(es[i], name);
      NameIndexIs(es, n, i);
    }
  }

  lemma TextIs(e: Entry, name: string)
    requires GoodEntry(e)
    ensures var n := NameOf(name);
            Pair(e) == name <==> n != name && e.name == n && e.value == name[|n| + 1..]
  {
    hide NameOf;
    var n := NameOf(name);
    if Pair(e) == name {
      PairClean(e);
      assert name[|e.name|] == '=';
      assert n != name by {
        assert '=' in name;
      }
      FirstIsUnique(name, '=', |e.name|, |n|);
      assert n == name[..|n|] && e.name == Pair(e)[..|e.name|];
      PairValue(e);
    } else if n != name {
      assert name == n + "=" + name[|n| + 1..];
    }
  }

  lemma TextDoesNotMatch(e: Entry, name: string)
    ensures Pair(e) == name ==> !Matches(e, name)
  {
  }

  lemma OneTextOverruns(e: Entry)
    requires GoodEntry(e)
    ensures Search([e], Pair(e)) == Overrun
  {
    hide EndsInside;
    PairClean(e);
    CompareEndsIff(Pair(e), Pair(e));
  }

  /** A change does no harm if its name is not the text of an entry, and it is not a set for which
      memory is granted of a name with an equals sign, where the part before the first equals sign
      is set, and not to what the name matches. */
  predicate Harmless(es: seq<Entry>, c: Change) {
    && !IsText(es, c.name)
    && (c.Unset? || !c.fits || '=' !in c.name || Lookup(es, NameOf(c.name)).None? || Lookup(es, c.name).Some?)
  }

  /** The search of a change ends, and names are pairwise distinct after it, exactly if the change
      does no harm. */
  lemma ApplyKeepsGoodIff(es: seq<Entry>, c: Change)
    requires GoodEntries(es) && GoodChange(c)
    ensures AllGood(Apply(es, c))
    ensures SearchEnds(es, c.name) && DistinctNames(Apply(es, c)) <==> Harmless(es, c)
  {
    hide Matches, Index, NameOf, Stored, Lookup, Search, IsText;
    SearchEndsIff(es, c.name);
    var rest := Without(es, c.name);
    WithoutLookup(es, c.name, NameOf(c.name));
    if c.Set? && c.fits {
      StoredPair(c.name, c.value);
      AppendKeepsDistinctIff(rest, Stored(c.name, c.value));
    } else {
      assert rest + [] == rest;
    }
  }

  /** One harmless change, seen as a change of a finite map. */
  lemma ApplyLookup(es: seq<Entry>, c: Change, name: string)
    requires GoodEntries(es) && GoodChange(c) && Harmless(es, c) && '=' !in name
    ensures Lookup(Apply(es, c), name) ==
            if c.Set? && c.fits && name == NameOf(c.name) then Some(Stored(c.name, c.value).value)
            else if name == NameOf(c.name) && Lookup(es, c.name).Some? then None
            else Lookup(es, name)
  {
    hide Matches, Index, NameOf, Stored, Lookup, IsText;
    WithoutLookup(es, c.name, name);
    WithoutLookup(es, c.name, NameOf(c.name));
    if c.Set? && c.fits {
      StoredPair(c.name, c.value);
      AppendLookup(Without(es, c.name), Stored(c.name, c.value), name);
    } else {
      assert Without(es, c.name) + [] == Without(es, c.name);
    }
  }

  /** Every change of a run is harmless when it is made. */
  predicate HarmlessRun(cs: seq<Change>) {
    cs == [] || (HarmlessRun(cs[..|cs| - 1]) && Harmless(ApplyAll([], cs[..|cs| - 1]), cs[|cs| - 1]))
  }

  /** The last value given to a name and not taken back since, as the name alone sees it. */
  function LastValue(cs: seq<Change>, name: string): Option<string> {
    if cs == [] then None
    else
      var c := cs[|cs| - 1];
      var before := LastValue(cs[..|cs| - 1], name);
      if name != NameOf(c.name) then before
      else if c.Set? && c.fits then Some(Stored(c.name, c.value).value)
      else if before.Some? && Matches(Entry(name, before.value), c.name) then None
      else before
  }

  lemma MatchIsLookup(es: seq<Entry>, name: string)
    requires GoodEntries(es)
    ensures var v := Lookup(es, NameOf(name));
            Lookup(es, name).Some? <==> v.Some? && Matches(Entry(NameOf(name), v.value), name)
  {
    hide Matches, NameOf, Index;
    LookupByName(es, name);
    IndexByName(es, NameOf(name));
    var k := Index(es, NameOf(name));
    if k < |es| {
      assert es[k] == Entry(NameOf(name), es[k].value);
      assert Matches(es[k], name) ==> Index(es, name) <= k;
      assert Index(es, name) < |es| ==> Matches(es[Index(es, name)], name);
    }
  }

  /** After any changes that do no harm, a lookup gives the last value set and not since taken
      back. */
  lemma {:induction false} LookupIsLastValue(cs: seq<Change>, name: string)
    requires (forall c | c in cs :: GoodChange(c)) && HarmlessRun(cs) && '=' !in name
    ensures GoodEntries(ApplyAll([], cs))
    ensures Lookup(ApplyAll([], cs), name) == LastValue(cs, name)
    decreases |cs|
  {
    hide Matches, NameOf, Index, Stored, Harmless, Apply, Lookup;
    if cs != [] {
      var front, c := cs[..|cs| - 1], cs[|cs| - 1];
      var es := ApplyAll([], front);
      LookupIsLastValue(front, name);
      ApplyKeepsGoodIff(es, c);
      ApplyLookup(es, c, name);
      MatchIsLookup(es, c.name);
    } else {
      NothingSet(name);
    }
  }

  lemma NothingSet(name: string)
    ensures Lookup([], name) == None
  {
  }

  /** `set a x` and then `set a=b c` leaves two entries that are named a. */
  lemma EqualsSignDoublesName()
    ensures var es := ApplyAll([], [Set("a", "x", true), Set("a=b", "c", true)]);
            es == [Entry("a", "x"), Entry("a", "b=c")] && !DistinctNames(es)
  {
    var c0, c1 := Set("a", "x", true), Set("a=b", "c", true);
    assert [c0, c1][..1] == [c0] && [c0][..0] == [];
    NamesOfExample();
    assert Without([], "a") == [];
    assert ApplyAll([], [c0]) == [] + [Entry("a", "x")];
    assert Pair(Entry("a", "x")) == "a=x" && !Matches(Entry("a", "x"), "a=b");
    IndexIs([Entry("a", "x")], "a=b", 1);
    assert ApplyAll([], [c0, c1]) == [Entry("a", "x")] + [Entry("a", "b=c")];
    var es := [Entry("a", "x"), Entry("a", "b=c")];
    assert es[0].name == es[1].name;
  }

  lemma NamesOfExample()
    ensures NameOf("a") == "a" && NameOf("a=b") == "a"
    ensures Stored("a=b", "c") == Entry("a", "b=c") && Stored("a", "x") == Entry("a", "x")
  {
    assert NameOf("=b") == "" && "a=b"[1..] == "=b" && NameOf("") == "" && "a"[1..] == "";
    assert "a=b"[2..] == "b" && "b" + "=" + "c" == "b=c";
  }

  function Size(es: seq<Entry>): nat {
    if es == [] then 0 else |es[0].name| + |es[0].value| + 2 + Size(es[1..])
  }

  // ----- The buffer -----

  lemma {:induction false} EncodeSize(es: seq<Entry>)
    ensures |Encode(es)| == Size(es)
  {
    if es != [] {
      EncodeSize(es[1..]);
    }
  }

  lemma {:induction false} EncodeAppend(a: seq<Entry>, b: seq<Entry>)
    ensures Encode(a + b) == Encode(a) + Encode(b)
    decreases |a|
  {
    if a == [] {
      assert a + b == b;
    } else {
      EncodeAppend(a[1..], b);
      assert (a + b)[1..] == a[1..] + b;
      assert Pair(a[0]) + ['\0'] + (Encode(a[1..]) + Encode(b)) == (Pair(a[0]) + ['\0'] + Encode(a[1..])) + Encode(b);
    }
  }

  lemma EncodeOne(e: Entry)
    ensures Encode([e]) == Pair(e) + ['\0']
  {
    assert [e][1..] == [];
  }

  lemma EncodeNext(es: seq<Entry>, k: nat)
    requires k < |es|
    ensures Encode(es[..k + 1]) == Encode(es[..k]) + (Pair(es[k]) + ['\0'])
  {
    hide Encode, Pair;
    assert es[..k + 1] == es[..k] + [es[k]];
    EncodeAppend(es[..k], [es[k]]);
    EncodeOne(es[k]);
  }

  lemma EncodeCut(es: seq<Entry>, k: nat)
    requires k <= |es|
    ensures Encode(es) == Encode(es[..k]) + Encode(es[k..])
  {
    hide Encode, Pair;
    assert es == es[..k] + es[k..];
    EncodeAppend(es[..k], es[k..]);
  }

  /** Where entry k is in the buffer. */
  function Start(es: seq<Entry>, k: nat): nat
    requires k <= |es|
  {
    |Encode(es[..k])|
  }

  /** The bytes of entry k, and where the next entry starts. */
  lemma EntryAt(es: seq<Entry>, k: nat, buf: seq<char>)
    requires k < |es| && buf == Encode(es)
    ensures var p := Start(es, k);
            var e := p + |Pair(es[k])|;
            e < |buf| && buf[p..e] == Pair(es[k]) && buf[e] == '\0' && Start(es, k + 1) == e + 1
  {
    hide Encode, Pair;
    EncodeNext(es, k);
    EncodeCut(es, k + 1);
    var a, b, c := Encode(es[..k]), Pair(es[k]), Encode(es[k + 1..]);
    assert buf == (a + (b + ['\0'])) + c;
    assert buf[|a|..|a| + |b|] == b;
  }

  /** The same, byte by byte. */
  lemma BytesAt(es: seq<Entry>, k: nat, buf: seq<char>)
    requires k < |es| && buf == Encode(es) && GoodEntry(es[k])
    ensures var p := Start(es, k);
            var pair := Pair(es[k]);
            && p + |pair| < |buf| && buf[p + |pair|] == '\0' && Start(es, k + 1) == p + |pair| + 1
            && |pair| == |es[k].name| + 1 + |es[k].value| && buf[p + |es[k].name|] == '='
            && (forall i | p <= i < p + |pair| :: buf[i] == pair[i - p] != '\0')
            && (forall i | p <= i < p + |es[k].name| :: buf[i] == es[k].name[i - p] != '=')
  {
    hide Encode, Pair;
    EntryAt(es, k, buf);
    PairClean(es[k]);
    var p := Start(es, k);
    var pair := Pair(es[k]);
    forall i | p <= i < p + |pair|
      ensures buf[i] == pair[i - p]
    {
      assert buf[i] == buf[p..p + |pair|][i - p];
    }
  }

  lemma StartInside(es: seq<Entry>, k: nat)
    requires k <= |es|
    ensures Start(es, k) <= |Encode(es)|
    ensures Start(es, k) == |Encode(es)| <==> k == |es|
  {
    hide Encode;
    EncodeCut(es, k);
    if k < |es| {
      EncodeHead(es[k..]);
    } else {
      assert es[..k] == es;
    }
  }

  lemma EncodeHead(es: seq<Entry>)
    requires es != []
    ensures |Encode(es)| > 0
  {
  }

  lemma PairClean(e: Entry)
    requires GoodEntry(e)
    ensures NulFree(Pair(e)) && forall i | 0 <= i < |Pair(e)| :: Pair(e)[i] != '\0'
    ensures |Pair(e)| == |e.name| + 1 + |e.value| && Pair(e)[|e.name|] == '='
    ensures forall i | 0 <= i < |e.name| :: Pair(e)[i] == e.name[i] != '='
  {
  }

  /** The first occurrence of a character is at one place only. */
  lemma FirstIsUnique(s: seq<char>, c: char, j: nat, k: nat)
    requires j < |s| && s[j] == c && forall i | 0 <= i < j :: s[i] != c
    requires k < |s| && s[k] == c && forall i | 0 <= i < k :: s[i] != c
    ensures j == k
  {
  }

  /** A buffer is cut into entries in one way only. */
  lemma {:induction false} EncodeInjective(a: seq<Entry>, b: seq<Entry>)
    requires (forall e | e in a :: GoodEntry(e)) && (forall e | e in b :: GoodEntry(e))
    requires Encode(a) == Encode(b)
    ensures a == b
    decreases |a|
  {
    if a != [] && b != [] {
      var pa, pb := Pair(a[0]), Pair(b[0]);
      PairClean(a[0]);
      PairClean(b[0]);
      assert Encode(a)[..|pa|] == pa && Encode(a)[|pa|] == '\0';
      assert Encode(b)[..|pb|] == pb && Encode(b)[|pb|] == '\0';
      assert forall i | 0 <= i < |pb| :: Encode(a)[i] == pb[i];
      FirstIsUnique(Encode(a), '\0', |pa|, |pb|);
      PairInjective(a[0], b[0]);
      assert Encode(a)[|pa| + 1..] == Encode(a[1..]);
      assert Encode(b)[|pb| + 1..] == Encode(b[1..]);
      EncodeInjective(a[1..], b[1..]);
    }
  }

  lemma PairInjective(a: Entry, b: Entry)
    requires GoodEntry(a) && GoodEntry(b) && Pair(a) == Pair(b)
    ensures a == b
  {
    PairClean(a);
    PairClean(b);
    FirstIsUnique(Pair(a), '=', |a.name|, |b.name|);
    assert a.name == Pair(a)[..|a.name|] && b.name == Pair(b)[..|a.name|];
    assert a.value == Pair(a)[|a.name| + 1..] && b.value == Pair(b)[|a.name| + 1..];
  }

  /** The pairs that nsh_foreach_var visits, and what it returns: all of them and 0, or those
      up to and including the first for which the callback does not return 0. */
  function Visit(es: seq<Entry>, cb: string -> int): (seq<string>, int) {
    if es == [] then ([], 0)
    else if cb(Pair(es[0])) != 0 then ([Pair(es[0])], cb(Pair(es[0])))
    else
      var rest := Visit(es[1..], cb);
      ([Pair(es[0])] + rest.0, rest.1)
  }

  lemma VisitUnfolds(es: seq<Entry>, k: nat, cb: string -> int)
    requires k <= |es|
    ensures k == |es| ==> Visit(es[k..], cb) == ([], 0)
    ensures k < |es| ==>
              var text := Pair(es[k]);
              var rest := Visit(es[k + 1..], cb);
              Visit(es[k..], cb) == if cb(text) != 0 then ([text], cb(text)) else ([text] + rest.0, rest.1)
  {
    if k < |es| {
      assert es[k..][0] == es[k] && es[k..][1..] == es[k + 1..];
    }
  }

  /** The callback sees the entries one by one, oldest set first, up to the first for which it does
      not return 0, and that result is returned; if there is none, it sees all of them. */
  lemma {:induction false} VisitsUntil(es: seq<Entry>, cb: string -> int)
    ensures var (seen, result) := Visit(es, cb);
            && |seen| <= |es| && (forall k | 0 <= k < |seen| :: seen[k] == Pair(es[k]))
            && (forall k | 0 <= k < |seen| - 1 :: cb(seen[k]) == 0)
            && result == (if seen == [] then 0 else cb(seen[|seen| - 1]))
            && (|seen| < |es| ==> result != 0)
  {
    if es != [] {
      VisitsUntil(es[1..], cb);
    }
  }

  /** A name without equals sign is the text of no entry, so that every search for it ends. */
  lemma GoodNameEnds(es: seq<Entry>, name: string)
    requires AllGood(es) && GoodName(name)
    ensures SearchEnds(es, name)
  {
    hide Search;
    SearchIs(es, name);
    forall i | 0 <= i < |es|
      ensures Pair(es[i]) != name
    {
      assert Pair(es[i])[|es[i].name|] == '=';
    }
  }

  lemma NotYetFound(es: seq<Entry>, name: string, k: nat)
    requires AllGood(es) && NulFree(name) && k <= |es|
    requires forall j | 0 <= j < k :: Pair(es[j]) != name && !Matches(es[j], name)
    ensures k < |es| && Pair(es[k]) == name ==> !SearchEnds(es, name)
    ensures k == |es| ==> SearchEnds(es, name) && Index(es, name) == |es|
    ensures k < |es| && Matches(es[k], name) ==> SearchEnds(es, name) && Index(es, name) == k
  {
    hide Search, Pair;
    SearchIs(es, name);
    assert k <= Index(es, name);
    if k < |es| && Matches(es[k], name) {
      TextDoesNotMatch(es[k], name);
      IndexIs(es, name, k);
    }
  }

  /** Where a name and a pair have agreed up to the NUL of the name, they are the same. */
  lemma BothEnd(name: string, pair: string, i: nat, c: char)
    requires i == |name| <= |pair| && name[..i] == pair[..i] && NulFree(pair)
    requires c == if i < |pair| then pair[i] else '\0'
    ensures c == '\0' ==> name == pair
  {
    assert i < |pair| ==> pair[i] in pair;
    assert name == name[..i] && pair == pair[..i] + pair[i..];
  }

  lemma Differ(name: string, pair: string, i: nat, c: char)
    requires i <= |name| && i <= |pair| && c == (if i < |pair| then pair[i] else '\0')
    requires c != if i < |name| then name[i] else '\0'
    ensures name != pair
  {
  }

  /** The first place where name and pair differ, or the end of the name, decides. */
  lemma MatchDecided(name: string, pair: string, i: nat)
    requires i <= |name| && i <= |pair| && name[..i] == pair[..i]
    requires i < |name| ==> i == |pair| || name[i] != pair[i]
    ensures name + "=" <= pair <==> i == |name| && i < |pair| && pair[i] == '='
  {
    var text := name + "=";
    assert text <= pair ==> forall j | 0 <= j < |text| :: text[j] == pair[j];
    if i == |name| {
      assert i < |pair| && pair[i] == '=' ==> pair[..|text|] == text;
      assert text <= pair ==> pair[i] == text[i];
    }
  }

  class VarStore {
    var varp: array?<char>
    var varsz: nat
    ghost var entries: seq<Entry>

    ghost predicate Valid()
      reads this, varp
    {
      && AllGood(entries)
      && (varp == null ==> varsz == 0 && entries == [])
      && (varp != null ==> varsz <= varp.Length && varp[..varsz] == Encode(entries))
    }

    constructor ()
      ensures Valid() && entries == [] && varp == null
    {
      varp, varsz, entries := null, 0, [];
    }

    /** The buffer is exactly as large as its entries, which it determines. */
    lemma BufferSize()
      requires Valid()
      ensures varsz == Size(entries)
    {
      EncodeSize(entries);
    }

    /** nsh_cmpname: does entry k, at ptr, match this name?  `ended` is false if the loop would go
        on past the NULs of both strings. */
    method CmpName(name: string, ptr: nat, ghost k: nat) returns (same: bool, ended: bool)
      requires Valid() && varp != null && NulFree(name) && k < |entries| && ptr == Start(entries, k)
      ensures ended == EndsInside(name, Pair(entries[k]))
      ensures ended ==> same == Matches(entries[k], name)
    {
      hide Encode, Pair, EndsInside;
      ghost var bytes := varp[..varsz];
      ghost var pair := Pair(entries[k]);
      BytesAt(entries, k, bytes);
      PairClean(entries[k]);
      CompareEndsIff(name, pair);
      var i := 0;
      while (if i < |name| then name[i] else '\0') == varp[ptr + i]
        invariant 0 <= i <= |name| && i <= |pair|
        invariant name[..i] == pair[..i]
        decreases |name| - i
      {
        assert varp[ptr + i] == bytes[ptr + i];
        if i == |name| {
          BothEnd(name, pair, i, bytes[ptr + i]);
          return false, false;
        }
        assert name[i] in name;
        i := i + 1;
      }
      assert varp[ptr + i] == bytes[ptr + i];
      same, ended := i == |name| && varp[ptr + i] == '=', true;
      MatchDecided(name, pair, i);
      Differ(name, pair, i, bytes[ptr + i]);
    }

    /** strlen() of entry k, at ptr. */
    method PairLength(ptr: nat, ghost k: nat) returns (len: nat)
      requires Valid() && varp != null && k < |entries| && ptr == Start(entries, k)
      ensures len == |Pair(entries[k])| && Start(entries, k + 1) == ptr + len + 1 <= varsz
    {
      hide Encode, Pair;
      ghost var bytes := varp[..varsz];
      BytesAt(entries, k, bytes);
      len := 0;
      while varp[ptr + len] != '\0'
        invariant 0 <= len <= |Pair(entries[k])|
        decreases |Pair(entries[k])| - len
      {
        assert varp[ptr + len] == bytes[ptr + len];
        len := len + 1;
      }
      assert varp[ptr + len] == bytes[ptr + len];
    }

    /** nsh_findvar. */
    method FindVar(name: string) returns (found: bool, ptr: nat, ended: bool)
      requires Valid() && NulFree(name)
      ensures ended == SearchEnds(entries, name)
      ensures ended ==> found == (Index(entries, name) < |entries|)
      ensures found ==> ended && ptr == Start(entries, Index(entries, name)) && ptr < varsz
    {
      hide Encode, Pair, Matches, Index, SearchEnds, EndsInside;
      found, ptr, ended := false, 0, true;
      ghost var k := 0;
      assert Start(entries, 0) == 0 by { EncodeNothing(); }
      while ptr < varsz
        invariant k <= |entries| && ptr == Start(entries, k) <= varsz
        invariant forall j | 0 <= j < k :: Pair(entries[j]) != name && !Matches(entries[j], name)
        invariant !found && ended
        decreases varsz - ptr
      {
        StartInside(entries, k);
        NotYetFound(entries, name, k);
        PairClean(entries[k]);
        CompareEndsIff(name, Pair(entries[k]));
        var same;
        same, ended := CmpName(name, ptr, k);
        if !ended {
          return;
        }
        if same {
          found := true;
          return;
        }
        var len := PairLength(ptr, k);
        ptr := ptr + len + 1;
        k := k + 1;
      }
      if varp != null {
        StartInside(entries, k);
      }
      NotYetFound(entries, name, |entries|);
    }

    /** nsh_removevar: move the entries after entry k down over it. */
    method RemoveVar(pair: nat, ghost k: nat)
      requires Valid() && varp != null && k < |entries| && pair == Start(entries, k)
      modifies this`varsz, this`entries, varp
      ensures Valid() && entries == old(entries)[..k] + old(entries)[k + 1..]
    {
      hide Encode, Pair;
      var len := PairLength(pair, k);
      ghost var all := varp[..varsz];
      var src, dest := pair + len + 1, pair;
      var count := varsz - src;
      ghost var n := count;
      while count > 0
        invariant 0 <= count <= n && src == pair + len + 1 + (n - count) && dest == pair + (n - count)
        invariant src + count == varsz
        invariant forall j | 0 <= j < pair :: varp[j] == all[j]
        invariant forall j | pair <= j < dest :: varp[j] == all[j + len + 1]
        invariant forall j | dest <= j < varsz :: varp[j] == all[j]
        modifies varp
      {
        varp[dest] := varp[src];
        src, dest, count := src + 1, dest + 1, count - 1;
      }
      varsz := varsz - (len + 1);
      EncodeWithout(entries, k);
      entries := entries[..k] + entries[k + 1..];
      assert varp[..varsz] == all[..pair] + all[pair + len + 1..];
    }

    /** nsh_getvar. */
    method GetVar(name: string) returns (value: Option<string>, ended: bool)
      requires Valid() && NulFree(name)
      ensures ended == SearchEnds(entries, name)
      ensures ended ==> value == Lookup(entries, name)
    {
      hide Encode, Pair, SearchEnds, Matches;
      var found, pair;
      found, pair, ended := FindVar(name);
      value := None;
      if !found {
        return;
      }
      ghost var k := Index(entries, name);
      ghost var bytes := varp[..varsz];
      StartInside(entries, k);
      BytesAt(entries, k, bytes);
      var i := 0;
      while varp[pair + i] != '='
        invariant 0 <= i <= |entries[k].name|
        decreases |entries[k].name| - i
      {
        assert varp[pair + i] == bytes[pair + i];
        i := i + 1;
      }
      assert varp[pair + i] == bytes[pair + i];
      var text := PairText(pair, k);
      PairValue(entries[k]);
      value := Some(text[i + 1..]);
    }

    /** nsh_setvar: the old entry of the name is removed before memory for the new one is asked
        for, so a set that runs out of memory leaves the name unset. */
    method SetVar(name: string, value: string, fits: bool) returns (ok: bool, ended: bool)
      requires Valid() && NulFree(name) && NulFree(value)
      modifies this, varp
      ensures Valid() && ended == SearchEnds(old(entries), name)
      ensures ended ==> ok == fits && entries == Apply(old(entries), Set(name, value, fits))
      ensures varp == old(varp) || fresh(varp)
    {
      hide Encode, Pair, Matches, Index, Stored, SearchEnds, GoodEntry;
      StoredPair(name, value);
      ended := RemoveOld(name);
      ok := false;
      if !ended {
        return;
      }
      var varlen := |name| + |value| + 2;
      if !fits {
        assert entries + [] == entries;
        return;
      }
      var newvarp := Grow(varlen);
      ghost var e := Stored(name, value);
      PrintPair(newvarp, varsz, name, value);
      EncodeMore(entries, e);
      assert newvarp[..] == Encode(entries + [e]);
      varp, varsz := newvarp, varsz + varlen;
      entries := entries + [e];
      assert varp[..varsz] == newvarp[..];
      ok := true;
    }

    /** realloc() or malloc(): a larger buffer that begins with the bytes of this one. */
    method Grow(more: nat) returns (newvarp: array<char>)
      requires Valid()
      ensures fresh(newvarp) && newvarp.Length == varsz + more && newvarp[..varsz] == Encode(entries)
    {
      hide Encode, Pair;
      newvarp := new char[varsz + more](_ => '\0');
      var i := 0;
      while i < varsz
        invariant 0 <= i <= varsz
        invariant varp != null ==> newvarp[..i] == varp[..i]
        modifies newvarp
      {
        newvarp[i] := varp[i];
        i := i + 1;
      }
      EncodeNothing();
    }

    /** The first part of nsh_setvar: remove the entry that the name matches, if there is one. */
    method RemoveOld(name: string) returns (ended: bool)
      requires Valid() && NulFree(name)
      modifies this`varsz, this`entries, varp
      ensures Valid() && ended == SearchEnds(old(entries), name)
      ensures ended ==> entries == Without(old(entries), name)
    {
      hide Encode, Pair, Matches, Index, SearchEnds;
      ended := true;
      if varp != null {
        var found, pair;
        found, pair, ended := FindVar(name);
        if found {
          RemoveVar(pair, Index(entries, name));
        }
      } else {
        NotYetFound(entries, name, 0);
      }
    }

    /** sprintf(pair, "%s=%s", name, value). */
    static method PrintPair(buf: array<char>, at: nat, name: string, value: string)
      requires at + |name| + |value| + 2 == buf.Length
      modifies buf
      ensures buf[..] == old(buf[..at]) + (name + "=" + value + ['\0'])
    {
      var text := name + "=" + value + ['\0'];
      var i := 0;
      while i < |text|
        invariant 0 <= i <= |text|
        invariant buf[..at + i] == old(buf[..at]) + text[..i]
      {
        buf[at + i] := text[i];
        i := i + 1;
      }
      assert text[..i] == text;
    }

    /** nsh_unsetvar; `shrinks` tells whether the buffer could be made smaller. */
    method UnsetVar(name: string, shrinks: bool) returns (ok: bool, ended: bool)
      requires Valid() && NulFree(name)
      modifies this, varp
      ensures Valid() && ended == SearchEnds(old(entries), name)
      ensures ended ==> entries == Apply(old(entries), Unset(name))
      ensures varp == old(varp) || varp == null
      ensures ok == (shrinks || entries == [] || entries == old(entries))
    {
      hide Encode, Pair, SearchEnds;
      var found, pair;
      found, pair, ended := FindVar(name);
      ok := true;
      if found {
        StartInside(entries, Index(entries, name));
        RemoveVar(pair, Index(entries, name));
        if varsz == 0 {
          varp := null;
          if entries != [] {
            EncodeHead(entries);
          }
        } else {
          EncodeNothing();
          ok := shrinks;
        }
      }
    }

    /** The C string of entry k, at ptr. */
    method PairText(ptr: nat, ghost k: nat) returns (text: string)
      requires Valid() && varp != null && k < |entries| && ptr == Start(entries, k)
      ensures text == Pair(entries[k]) && Start(entries, k + 1) == ptr + |text| + 1 <= varsz
    {
      hide Encode, Pair;
      var len := PairLength(ptr, k);
      EntryAt(entries, k, varp[..varsz]);
      text := varp[ptr..ptr + len];
      ghost var bytes := varp[..varsz];
      assert forall j | 0 <= j < len :: text[j] == varp[ptr + j] == bytes[ptr..ptr + len][j];
    }

    /** nsh_foreach_var. */
    method ForEach(cb: string -> int) returns (visited: seq<string>, ret: int)
      requires Valid()
      ensures (visited, ret) == Visit(entries, cb)
    {
      hide Encode, Pair;
      hide Visit;
      visited, ret := [], 0;
      var ptr := 0;
      ghost var k := 0;
      assert Start(entries, 0) == 0 by { EncodeNothing(); }
      assert entries[0..] == entries;
      ghost var target := Visit(entries, cb);
      assert target == (target.0, target.1);
      while ptr < varsz
        invariant k <= |entries| && ptr == Start(entries, k) <= varsz
        invariant target.0 == visited + Visit(entries[k..], cb).0 && target.1 == Visit(entries[k..], cb).1
        invariant ret == 0
        decreases varsz - ptr
      {
        StartInside(entries, k);
        VisitUnfolds(entries, k, cb);
        var text := PairText(ptr, k);
        visited := visited + [text];
        ret := cb(text);
        if ret != 0 {
          return;
        }
        ptr := ptr + |text| + 1;
        k := k + 1;
      }
      if varp != null {
        StartInside(entries, k);
      }
      VisitUnfolds(entries, k, cb);
      assert visited + [] == visited;
    }
  }

  lemma EncodeNothing()
    ensures Encode([]) == [] && forall es: seq<Entry> :: es[..0] == []
  {
  }

  lemma EncodeMore(es: seq<Entry>, e: Entry)
    ensures Encode(es + [e]) == Encode(es) + (Pair(e) + ['\0'])
  {
    EncodeAppend(es, [e]);
    EncodeOne(e);
  }

  lemma PairValue(e: Entry)
    ensures Pair(e)[|e.name| + 1..] == e.value
  {
  }

  lemma EncodeWithout(es: seq<Entry>, k: nat)
    requires k < |es|
    ensures Start(es, k) <= Start(es, k + 1) <= |Encode(es)|
    ensures Encode(es[..k] + es[k + 1..]) == Encode(es)[..Start(es, k)] + Encode(es)[Start(es, k + 1)..]
  {
    hide Encode, Pair;
    EncodeAppend(es[..k], es[k + 1..]);
    EncodeCut(es, k);
    EncodeCut(es, k + 1);
    EncodeNext(es, k);
  }
}
