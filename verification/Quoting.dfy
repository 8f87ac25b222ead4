/** Back-slash quoting.  Four pieces of code decide, each in its own way, whether a character is
    quoted: a flag carried forward (`StrChr`, `Dequote`), a previous character and a flag
    (`FindDelimiter`), and a count of back-slashes going backward (`FindSpecial`).  All of them
    are proved against the one predicate `Quoted`. */
module Quoting {
  import opened CStrings

  const BACKSLASH := '\\'

  /** Character i is quoted: it follows a back-slash that is not itself quoted. */
  predicate Quoted(s: string, i: nat)
    requires i <= |s|
  {
    i > 0 && s[i - 1] == BACKSLASH && !Quoted(s, i - 1)
  }

  /** An unquoted back-slash quotes the next character and stands for nothing else. */
  predicate Quotes(s: string, i: nat)
    requires i < |s|
  {
    s[i] == BACKSLASH && !Quoted(s, i)
  }

  /** Character i is an occurrence of c that means c. */
  predicate Occurs(s: string, i: nat, c: char)
    requires i < |s|
  {
    s[i] == c && !Quoted(s, i) && c != BACKSLASH
  }

  /** nsh_strchr: the first unquoted c.  A back-slash is never found. */
  method StrChr(s: string, c: char) returns (r: int)
    ensures -1 <= r < |s|
    ensures r >= 0 ==> Occurs(s, r, c) && forall k | 0 <= k < r :: !Occurs(s, k, c)
    ensures r == -1 ==> forall k | 0 <= k < |s| :: !Occurs(s, k, c)
  {
    var quoted := false;
    var i := 0;
    while i < |s|
      invariant 0 <= i <= |s|
      invariant quoted == Quoted(s, i)
      invariant forall k | 0 <= k < i :: !Occurs(s, k, c)
    {
      if s[i] == BACKSLASH && !quoted {
        quoted := true;
      } else if s[i] == c && !quoted {
        return i;
      } else {
        quoted := false;
      }
      i := i + 1;
    }
    return -1;
  }

  /** The search of nsh_argument for the end of an argument: the first unquoted character of
      `term`, or the end of the string. */
  method FindDelimiter(s: string, term: set<char>) returns (end: nat)
    ensures end <= |s|
    ensures end < |s| ==> exists c | c in term :: Occurs(s, end, c)
    ensures forall k, c | 0 <= k < end && c in term :: !Occurs(s, k, c)
  {
    var quoted := false;
    end := 0;
    while end < |s|
      invariant end <= |s|
      invariant quoted == (end > 0 && Quoted(s, end - 1))
      invariant forall k, c | 0 <= k < end && c in term :: !Occurs(s, k, c)
    {
      if end > 0 && s[end - 1] == BACKSLASH && !quoted {
        quoted := true;
      } else {
        quoted := false;
        if s[end] != BACKSLASH && s[end] in term {
          assert Occurs(s, end, s[end]);
          return;
        }
      }
      end := end + 1;
    }
  }

  /** The number of back-slashes just before position i. */
  function Backslashes(s: string, i: nat): (n: nat)
    requires i <= |s|
    ensures n <= i
  {
    if i > 0 && s[i - 1] == BACKSLASH then 1 + Backslashes(s, i - 1) else 0
  }

  /** A character is quoted exactly if an odd number of back-slashes comes just before it. */
  lemma {:induction false} QuotedIsOddParity(s: string, i: nat)
    requires i <= |s|
    ensures Quoted(s, i) <==> Backslashes(s, i) % 2 == 1
  {
    if i > 0 && s[i - 1] == BACKSLASH {
      QuotedIsOddParity(s, i - 1);
    }
  }

  /** A character can be found exactly if an even number of back-slashes comes just before it and it
      is not a back-slash. */
  lemma OccursIff(s: string, i: nat, c: char)
    requires i < |s|
    ensures Occurs(s, i, c) <==> s[i] == c && c != '\\' && Backslashes(s, i) % 2 == 0
  {
    QuotedIsOddParity(s, i);
  }

  predicate Special(c: char) {
    c == '`' || c == '$'
  }

  /** strcspn(): the first special character at or after i, or the end of the string. */
  function NextSpecial(s: string, i: nat): (q: nat)
    requires i <= |s|
    ensures i <= q <= |s|
    ensures forall k | i <= k < q :: !Special(s[k])
    ensures q < |s| ==> Special(s[q])
    decreases |s| - i
  {
    if i == |s| || Special(s[i]) then i else NextSpecial(s, i + 1)
  }

  /** The search of nsh_argexpand for something to expand: the first unquoted special
      character, or the end of the string. */
  method FindSpecial(s: string) returns (len: nat)
    ensures len <= |s|
    ensures len < |s| ==> Occurs(s, len, '`') || Occurs(s, len, '$')
    ensures forall k | 0 <= k < len :: !Occurs(s, k, '`') && !Occurs(s, k, '$')
  {
    len := NextSpecial(s, 0);
    while len > 0 && len < |s|
      invariant len <= |s| && (len < |s| ==> Special(s[len]))
      invariant forall k | 0 <= k < len :: Special(s[k]) ==> Quoted(s, k)
      decreases |s| - len
    {
      var quoted := false;
      var bcount := 0;
      while bcount < len && s[len - 1 - bcount] == BACKSLASH
        invariant 0 <= bcount <= len
        invariant Backslashes(s, len) == bcount + Backslashes(s, len - bcount)
        invariant quoted == (bcount % 2 == 1)
      {
        bcount, quoted := bcount + 1, !quoted;
      }
      QuotedIsOddParity(s, len);
      if !quoted {
        break;
      }
      len := NextSpecial(s, len + 1);
    }
  }

  // ----- Removing the quotes -----

  /** One pass: drop every unquoted back-slash. */
  function Unescape(s: string, quoted: bool): string {
    if s == "" then ""
    else if s[0] == BACKSLASH && !quoted then Unescape(s[1..], true)
    else [s[0]] + Unescape(s[1..], false)
  }

  /** The characters that nsh_dequote keeps are those that do not quote another one. */
  function Kept(s: string, i: nat): string
    requires i <= |s|
    decreases |s| - i
  {
    if i == |s| then "" else (if Quotes(s, i) then "" else [s[i]]) + Kept(s, i + 1)
  }

  lemma {:induction false} UnescapeKeeps(s: string, i: nat)
    requires i <= |s|
    ensures Unescape(s[i..], Quoted(s, i)) == Kept(s, i)
    decreases |s| - i
  {
    if i < |s| {
      UnescapeKeeps(s, i + 1);
      assert s[i..][1..] == s[i + 1..];
    }
  }

  function Escape(s: string, chosen: set<char>): string {
    if s == "" then "" else (if s[0] in chosen then [BACKSLASH, s[0]] else [s[0]]) + Escape(s[1..], chosen)
  }

  /** Putting a back-slash before chosen characters, back-slash among them, is undone. */
  lemma {:induction false} UnescapeUndoesEscape(s: string, chosen: set<char>)
    requires BACKSLASH in chosen
    ensures Unescape(Escape(s, chosen), false) == s
  {
    if s != "" {
      UnescapeUndoesEscape(s[1..], chosen);
      var rest := Escape(s[1..], chosen);
      if s[0] in chosen {
        assert ([BACKSLASH, s[0]] + rest)[1..] == [s[0]] + rest;
        assert ([s[0]] + rest)[1..] == rest;
      } else {
        assert ([s[0]] + rest)[1..] == rest;
      }
    }
  }

  lemma {:induction false} QuotedAfter(a: string, b: string, i: nat)
    requires i <= |b| && !Quoted(a + b, |a|)
    ensures Quoted(a + b, |a| + i) == Quoted(b, i)
  {
    if i > 0 {
      QuotedAfter(a, b, i - 1);
    }
  }

  /** Escaping protects: none of the searches above stops at an escaped character. */
  lemma {:induction false} EscapeProtects(s: string, chosen: set<char>, i: nat)
    requires BACKSLASH in chosen && i < |Escape(s, chosen)| && Escape(s, chosen)[i] in chosen
    ensures Quotes(Escape(s, chosen), i) || Quoted(Escape(s, chosen), i)
    decreases |s|
  {
    var rest := Escape(s[1..], chosen);
    var first := if s[0] in chosen then [BACKSLASH, s[0]] else [s[0]];
    var t := first + rest;
    assert !Quoted(t, |first|) by {
      if s[0] in chosen {
        assert t[0] == BACKSLASH && Quoted(t, 1);
      } else {
        assert t[0] != BACKSLASH;
      }
    }
    if i >= |first| {
      EscapeProtects(s[1..], chosen, i - |first|);
      QuotedAfter(first, rest, i - |first|);
    } else if i == 1 {
      assert t[0] == BACKSLASH && !Quoted(t, 0);
    }
  }

  lemma UnescapeOne(done: string, s: string, quoted: bool)
    requires s != ""
    ensures done + Unescape(s, quoted) ==
            if s[0] == BACKSLASH && !quoted then done + Unescape(s[1..], true)
            else (done + [s[0]]) + Unescape(s[1..], false)
  {
  }

  lemma UnescapeNothing(quoted: bool)
    ensures Unescape("", quoted) == ""
  {
  }

  /** nsh_dequote: remove the quotes in place, moving the rest of the string down by one on
      every unquoted back-slash. */
  method Dequote(buf: array<char>)
    requires '\0' in buf[..]
    modifies buf
    ensures CString(buf[..]) == Unescape(CString(old(buf[..])), false)
  {
    hide Unescape, CString;
    ghost var s := CString(buf[..]);
    ghost var n := |s|;
    assert buf[0..n] == s && buf[..0] + Unescape(s, false) == Unescape(s, false);
    var quoted := false;
    var i := 0;
    while buf[i] != '\0'
      invariant 0 <= i <= n < buf.Length && buf[n] == '\0'
      invariant forall k | 0 <= k < n :: buf[k] != '\0'
      invariant Unescape(s, false) == buf[..i] + Unescape(buf[i..n], quoted)
      decreases n - i
    {
      UnescapeOne(buf[..i], buf[i..n], quoted);
      if buf[i] == BACKSLASH && !quoted {
        ghost var done, rest := buf[..i], buf[i + 1..n];
        assert buf[i..n][1..] == rest;
        MoveDown(buf, i, n);
        n := n - 1;
        quoted := true;
        assert buf[i..n] == rest && buf[..i] == done;
      } else {
        assert buf[i..n][1..] == buf[i + 1..n];
        assert buf[..i] + [buf[i]] == buf[..i + 1];
        quoted := false;
        i := i + 1;
      }
    }
    buf[i] := '\0';
    UnescapeNothing(quoted);
    assert buf[i..n] == [] && buf[..n] == Unescape(s, false);
    CStringIs(buf[..], Unescape(s, false));
  }

  /** Overwrite the character at i by moving what follows it down, up to and including the NUL
      at n. */
  method MoveDown(buf: array<char>, i: nat, ghost n: nat)
    requires i < n < buf.Length && buf[n] == '\0'
    requires forall k | i <= k < n :: buf[k] != '\0'
    modifies buf
    ensures buf[n - 1] == '\0'
    ensures forall k | i <= k < n :: buf[k] == old(buf[k + 1])
    ensures forall k | 0 <= k < buf.Length && !(i <= k < n) :: buf[k] == old(buf[k])
  {
    var j := i;
    var ch := buf[j + 1];
    buf[j] := ch;
    while ch != '\0'
      invariant i <= j < n && ch == old(buf[j + 1])
      invariant forall k | i <= k <= j :: buf[k] == old(buf[k + 1])
      invariant forall k | 0 <= k < buf.Length && !(i <= k <= j) :: buf[k] == old(buf[k])
      decreases n - j
    {
      j := j + 1;
      ch := buf[j + 1];
      buf[j] := ch;
    }
  }
}
