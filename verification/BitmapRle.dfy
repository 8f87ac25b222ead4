/** The bitmap converter: nearest palette colours, and run-length encoding of a row. */
module BitmapRle {

  // ----- Palette colours -----

  datatype Color = Color(r: int, g: int, b: int)

  function Square(x: int): (s: nat)
    ensures s == 0 <==> x == 0
  {
    x * x
  }

  lemma SquareOfSum(x: int, y: int)
    ensures Square(x + y) == Square(x) + 2 * x * y + Square(y) && Square(-x) == Square(x)
  {
  }

  function Distance(a: Color, b: Color): (d: nat)
    ensures d == 0 <==> a == b
  {
    Square(a.r - b.r) + Square(a.g - b.g) + Square(a.b - b.b)
  }

  /** list.index(): the first position of a colour, or the length of the palette. */
  function IndexOf(palette: seq<Color>, c: Color): (k: nat)
    ensures k <= |palette|
    ensures forall i | 0 <= i < k :: palette[i] != c
    ensures k < |palette| ==> palette[k] == c
  {
    if palette == [] || palette[0] == c then 0 else 1 + IndexOf(palette[1..], c)
  }

  /** min(): the first colour of the palette at the least distance from c. */
  function Closest(palette: seq<Color>, c: Color): (m: Color)
    requires palette != []
    ensures m in palette
    ensures forall p | p in palette :: Distance(c, m) <= Distance(c, p)
  {
    if |palette| == 1 then palette[0]
    else
      var m := Closest(palette[1..], c);
      assert forall p | p in palette :: p == palette[0] || p in palette[1..];
      if Distance(c, palette[0]) <= Distance(c, m) then palette[0] else m
  }

  function Quantize(c: Color, palette: seq<Color>): nat
    requires palette != []
  {
    var k := IndexOf(palette, c);
    if k < |palette| then k else IndexOf(palette, Closest(palette, c))
  }

  /** Palette entry k is the first one that is as close to c as any. */
  ghost predicate FirstClosest(palette: seq<Color>, c: Color, k: nat) {
    && k < |palette|
    && (forall i | 0 <= i < |palette| :: Distance(c, palette[k]) <= Distance(c, palette[i]))
    && (forall i | 0 <= i < k :: Distance(c, palette[k]) < Distance(c, palette[i]))
  }

  lemma {:induction false} ClosestIsFirst(palette: seq<Color>, c: Color)
    requires palette != []
    ensures FirstClosest(palette, c, IndexOf(palette, Closest(palette, c)))
  {
    var m := Closest(palette, c);
    if |palette| > 1 {
      var rest := palette[1..];
      ClosestIsFirst(rest, c);
      var m' := Closest(rest, c);
      if Distance(c, palette[0]) <= Distance(c, m') {
        assert m == palette[0];
        forall i | 0 < i < |palette|
          ensures Distance(c, m) <= Distance(c, palette[i])
        {
          assert palette[i] in rest;
        }
      } else {
        assert m == m' && palette[0] != m;
        var k := IndexOf(rest, m');
        assert IndexOf(palette, m) == 1 + k;
        assert forall i | 0 < i < |palette| :: palette[i] == rest[i - 1];
      }
    }
  }

  /** quantize gives the least index at the least squared distance. */
  lemma QuantizeIsFirstClosest(c: Color, palette: seq<Color>)
    requires palette != []
    ensures FirstClosest(palette, c, Quantize(c, palette))
  {
    ClosestIsFirst(palette, c);
    var k := IndexOf(palette, c);
    if k < |palette| {
      assert Distance(c, palette[k]) == 0;
    }
  }

  function QuantizeRow(row: seq<Color>, palette: seq<Color>): (q: seq<nat>)
    requires row != [] ==> palette != []
    ensures |q| == |row| && forall x | 0 <= x < |row| :: q[x] == Quantize(row[x], palette)
  {
    seq(|row|, x requires 0 <= x < |row| => Quantize(row[x], palette))
  }

  // ----- Run-length encoding -----

  datatype Run = Run(repeats: nat, color: nat)

  const MAX_REPEATS: nat := 255

  function Repeat(c: nat, n: nat): (s: seq<nat>)
    ensures |s| == n && forall i | 0 <= i < n :: s[i] == c
  {
    seq(n, _ => c)
  }

  function Decode(runs: seq<Run>): seq<nat> {
    if runs == [] then [] else Repeat(runs[0].color, runs[0].repeats) + Decode(runs[1..])
  }

  ghost predicate Encodes(runs: seq<Run>, row: seq<nat>) {
    Decode(runs) == row && forall r | r in runs :: 1 <= r.repeats <= 255
  }

  /** How many entries at the front are equal, counting at most `limit`. */
  function RunLength(row: seq<nat>, limit: nat): (n: nat)
    requires row != [] && limit > 0
    ensures 1 <= n <= |row| && n <= limit
    ensures forall i | 0 <= i < n :: row[i] == row[0]
    ensures n < |row| && n < limit ==> row[n] != row[0]
  {
    if |row| == 1 || limit == 1 || row[1] != row[0] then 1 else 1 + RunLength(row[1..], limit - 1)
  }

  /** The encoding that always takes the longest run it can. */
  function Greedy(row: seq<nat>): seq<Run>
    decreases |row|
  {
    if row == [] then []
    else
      var n := RunLength(row, MAX_REPEATS);
      [Run(n, row[0])] + Greedy(row[n..])
  }

  lemma RunLengthIs(row: seq<nat>, n: nat)
    requires 1 <= n <= |row| && n <= MAX_REPEATS
    requires forall i | 0 <= i < n :: row[i] == row[0]
    requires n < |row| && n < MAX_REPEATS ==> row[n] != row[0]
    ensures RunLength(row, MAX_REPEATS) == n
  {
  }

  /** A run that has been counted but not closed, and the rest of the row. */
  function Pending(color: nat, repeats: nat, rest: seq<nat>): seq<nat> {
    Repeat(color, repeats) + rest
  }

  lemma PendingStarts(color: nat, row: seq<nat>)
    ensures Pending(color, 0, row) == row
    ensures row != [] ==> Pending(row[0], 1, row[1..]) == row
  {
  }

  lemma PendingGrows(color: nat, repeats: nat, row: seq<nat>)
    requires row != [] && row[0] == color
    ensures Pending(color, repeats, row) == Pending(color, repeats + 1, row[1..])
  {
  }

  /** A run that cannot be longer is an entry of its own. */
  lemma RunCloses(color: nat, repeats: nat, rest: seq<nat>)
    requires 1 <= repeats <= MAX_REPEATS
    requires rest != [] && repeats < MAX_REPEATS ==> rest[0] != color
    ensures Greedy(Pending(color, repeats, rest)) == [Run(repeats, color)] + Greedy(rest)
  {
    var row := Pending(color, repeats, rest);
    RunLengthIs(row, repeats);
    assert row[repeats..] == rest;
  }

  lemma PendingCloses(entries: seq<Run>, color: nat, repeats: nat, rest: seq<nat>)
    requires 1 <= repeats <= MAX_REPEATS
    requires rest != [] && repeats < MAX_REPEATS ==> rest[0] != color
    ensures entries + Greedy(Pending(color, repeats, rest)) == entries + [Run(repeats, color)] + Greedy(rest)
  {
    hide Greedy, Pending;
    RunCloses(color, repeats, rest);
  }

  /** encode_row. */
  method EncodeRow(row: seq<Color>, palette: seq<Color>) returns (entries: seq<Run>)
    requires row != [] ==> palette != []
    ensures entries == Greedy(QuantizeRow(row, palette))
  {
    hide Greedy, Quantize, Pending;
    ghost var q := QuantizeRow(row, palette);
    entries := [];
    var started, color, repeats := false, 0, 0;
    var x := 0;
    PendingStarts(0, q);
    while x < |row|
      invariant 0 <= x <= |row|
      invariant started == (x > 0) && (!started ==> repeats == 0)
      invariant started ==> 1 <= repeats <= MAX_REPEATS
      invariant entries + Greedy(Pending(color, repeats, q[x..])) == Greedy(q)
    {
      var c := Quantize(row[x], palette);
      ghost var rest := q[x..];
      assert rest[0] == c && rest[1..] == q[x + 1..];
      if started && c == color && repeats < MAX_REPEATS {
        PendingGrows(color, repeats, rest);
        repeats := repeats + 1;
      } else {
        PendingStarts(color, rest);
        if started {
          PendingCloses(entries, color, repeats, rest);
          entries := entries + [Run(repeats, color)];
        }
        repeats := 1;
        started, color := true, c;
      }
      x := x + 1;
    }
    assert q[x..] == [];
    GreedyNothing();
    if started {
      PendingCloses(entries, color, repeats, []);
      entries := entries + [Run(repeats, color)];
    } else {
      PendingStarts(color, []);
    }
  }

  lemma GreedyNothing()
    ensures Greedy([]) == []
  {
  }

  /** The encoding decodes to the row, with counts in 1..255. */
  lemma {:induction false} GreedyEncodes(row: seq<nat>)
    ensures Encodes(Greedy(row), row)
    decreases |row|
  {
    if row == [] {
      GreedyNothing();
    } else {
      hide RunLength, Greedy, Encodes, Repeat;
      var n := RunLength(row, MAX_REPEATS);
      GreedyEncodes(row[n..]);
      GreedyUnfolds(row, n);
      RunEncodes(Run(n, row[0]), Greedy(row[n..]), row[n..]);
      RunAndRest(row, n);
    }
  }

  lemma RunAndRest(row: seq<nat>, n: nat)
    requires 1 <= n <= |row| && forall i | 0 <= i < n :: row[i] == row[0]
    ensures Repeat(row[0], n) + row[n..] == row
  {
    assert Repeat(row[0], n) == row[..n];
    assert row[..n] + row[n..] == row;
  }

  lemma GreedyUnfolds(row: seq<nat>, n: nat)
    requires row != [] && n == RunLength(row, MAX_REPEATS)
    ensures Greedy(row) == [Run(n, row[0])] + Greedy(row[n..])
  {
  }

  lemma RunEncodes(run: Run, runs: seq<Run>, row: seq<nat>)
    requires Encodes(runs, row) && 1 <= run.repeats <= MAX_REPEATS
    ensures Encodes([run] + runs, Repeat(run.color, run.repeats) + row)
  {
    assert ([run] + runs)[1..] == runs;
  }

  /** Taking the first entry away from a row does not make its encoding longer. */
  lemma {:induction false} ShorterRow(row: seq<nat>)
    requires row != []
    ensures |Greedy(row[1..])| <= |Greedy(row)|
    decreases |row|
  {
    var n := RunLength(row, MAX_REPEATS);
    var rest := row[1..];
    if n > 1 {
      if n < |row| && row[n] == row[0] {
        RunLengthIs(rest, n);
        assert rest[n..] == row[n..][1..];
        ShorterRow(row[n..]);
      } else {
        RunLengthIs(rest, n - 1);
        assert rest[n - 1..] == row[n..];
      }
    } else {
      assert rest == row[n..];
    }
  }

  lemma {:induction false} SuffixNotLonger(row: seq<nat>, k: nat)
    requires k <= |row|
    ensures |Greedy(row[k..])| <= |Greedy(row)|
    decreases k
  {
    if k == 0 {
      assert row[0..] == row;
    } else {
      ShorterRow(row);
      SuffixNotLonger(row[1..], k - 1);
      assert row[1..][k - 1..] == row[k..];
    }
  }

  /** No encoding of the same row with counts in 1..255 has fewer entries. */
  lemma {:induction false} GreedyIsShortest(runs: seq<Run>, row: seq<nat>)
    requires Encodes(runs, row)
    ensures |Greedy(row)| <= |runs|
    decreases |runs|
  {
    if runs != [] {
      var r := runs[0];
      var rest := row[r.repeats..];
      assert row == Repeat(r.color, r.repeats) + Decode(runs[1..]);
      assert rest == Decode(runs[1..]);
      GreedyIsShortest(runs[1..], rest);
      var n := RunLength(row, MAX_REPEATS);
      LongestRun(row, r.repeats, n);
      assert rest[n - r.repeats..] == row[n..];
      SuffixNotLonger(rest, n - r.repeats);
    }
  }

  lemma LongestRun(row: seq<nat>, k: nat, n: nat)
    requires row != [] && n == RunLength(row, MAX_REPEATS) && 1 <= k <= |row| && k <= MAX_REPEATS
    requires forall i | 0 <= i < k :: row[i] == row[0]
    ensures k <= n
  {
  }

  /** A row whose colours are all in the palette is decoded without loss. */
  lemma LosslessRow(row: seq<Color>, palette: seq<Color>, x: nat)
    requires row != [] ==> palette != []
    requires forall c | c in row :: c in palette
    requires x < |row|
    ensures var q := Decode(Greedy(QuantizeRow(row, palette)));
            |q| == |row| && q[x] < |palette| && palette[q[x]] == row[x]
  {
    GreedyEncodes(QuantizeRow(row, palette));
    assert row[x] in palette;
    QuantizeIsFirstClosest(row[x], palette);
  }
}
