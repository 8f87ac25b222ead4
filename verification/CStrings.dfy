/** Strings that end at a NUL, inside a longer buffer. */
module CStrings {

  /** The part of a buffer that C sees as a string. */
  function CString(s: seq<char>): (r: string)
    ensures |r| <= |s| && r == s[..|r|] && '\0' !in r
    ensures |r| < |s| ==> s[|r|] == '\0'
  {
    if s == [] || s[0] == '\0' then "" else [s[0]] + CString(s[1..])
  }

  /** What follows a NUL does not matter. */
  lemma {:induction false} CStringPrefix(buf: seq<char>, n: nat)
    requires n < |buf| && buf[n] == '\0'
    ensures CString(buf) == CString(buf[..n])
    decreases n
  {
    if n > 0 && buf[0] != '\0' {
      assert buf[1..][..n - 1] == buf[..n][1..];
      CStringPrefix(buf[1..], n - 1);
    }
  }

  /** A C string that starts at `start` and has its NUL at e. */
  lemma {:induction false} TextAt(buf: seq<char>, start: nat, line: string, e: nat)
    requires start <= e <= |line| < |buf| && buf[e] == '\0'
    requires forall k | start <= k < e :: buf[k] == line[k] && line[k] != '\0'
    ensures CString(buf[start..]) == line[start..e]
    decreases e - start
  {
    if start < e {
      TextAt(buf, start + 1, line, e);
      assert buf[start..][1..] == buf[start + 1..];
    }
  }

  lemma {:induction false} NoNul(s: string)
    requires '\0' !in s
    ensures CString(s) == s
  {
    if s != [] {
      NoNul(s[1..]);
    }
  }

  /** A buffer that begins with text and a NUL holds that text. */
  lemma CStringIs(buf: seq<char>, text: string)
    requires |text| < |buf| && buf[..|text|] == text && buf[|text|] == '\0' && '\0' !in text
    ensures CString(buf) == text
  {
    CStringPrefix(buf, |text|);
    NoNul(text);
  }

  /** A string as the code has it, with its NUL. */
  method ToBuffer(text: string) returns (buf: array<char>)
    requires '\0' !in text
    ensures fresh(buf) && '\0' in buf[..] && CString(buf[..]) == text
  {
    buf := new char[|text| + 1](i => if 0 <= i < |text| then text[i] else '\0');
    assert buf[..][|text|] == '\0';
    CStringIs(buf[..], text);
  }
}
