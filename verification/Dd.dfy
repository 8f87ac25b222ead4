/** The `dd` command: copy sectors, whatever the sizes of the reads and writes that the system
    grants. */
module Dd {

  type Byte = n: nat | n < 0x100

  const SECTOR_NUMBERS: nat := 0x1_0000_0000

  // ----- What dd is to write -----

  function Min(a: nat, b: nat): nat {
    if a < b then a else b
  }

  function Zeros(n: nat): (z: seq<Byte>)
    ensures |z| == n && forall b | b in z :: b == 0
  {
    seq(n, _ => 0)
  }

  /** The first sector of the data, padded with zeros at the end of the data. */
  function FirstSector(data: seq<Byte>, sectsize: nat): (s: seq<Byte>)
    ensures |s| == sectsize
  {
    var n := Min(sectsize, |data|);
    data[..n] + Zeros(sectsize - n)
  }

  function AfterSector(data: seq<Byte>, sectsize: nat): seq<Byte> {
    data[Min(sectsize, |data|)..]
  }

  /** The first `count` sectors of the data, each padded to its full size. */
  function Sectors(data: seq<Byte>, sectsize: nat, count: nat): seq<Byte>
    decreases count
  {
    if count == 0 || data == [] || sectsize == 0 then []
    else FirstSector(data, sectsize) + Sectors(AfterSector(data, sectsize), sectsize, count - 1)
  }

  function DropSectors(data: seq<Byte>, sectsize: nat, skip: nat): seq<Byte>
    decreases skip
  {
    if skip == 0 || data == [] then data else DropSectors(AfterSector(data, sectsize), sectsize, skip - 1)
  }

  function Copied(data: seq<Byte>, sectsize: nat, skip: nat, count: nat): seq<Byte> {
    Sectors(DropSectors(data, sectsize, skip), sectsize, count)
  }

  /** The number of sectors, the last one possibly short. */
  function SectorCount(data: seq<Byte>, sectsize: nat): nat
    requires sectsize > 0
    decreases |data|
  {
    if data == [] then 0 else 1 + SectorCount(AfterSector(data, sectsize), sectsize)
  }

  // ----- The same in closed form -----

  /** The data padded with zeros to a multiple of the sector size. */
  function Padded(data: seq<Byte>, sectsize: nat): (p: seq<Byte>)
    requires sectsize > 0
    decreases |data|
  {
    if data == [] then [] else FirstSector(data, sectsize) + Padded(AfterSector(data, sectsize), sectsize)
  }

  /** Padding adds fewer zeros than a sector, and only zeros, and makes whole sectors. */
  lemma {:induction false} PaddedIs(data: seq<Byte>, sectsize: nat)
    requires sectsize > 0
    ensures var p := Padded(data, sectsize);
            && |data| <= |p| < |data| + sectsize
            && p[..|data|] == data
            && (forall k | |data| <= k < |p| :: p[k] == 0)
            && |p| == SectorCount(data, sectsize) * sectsize
    decreases |data|
  {
    if data != [] {
      var n := Min(sectsize, |data|);
      PaddedIs(data[n..], sectsize);
      var q := Padded(data[n..], sectsize);
      assert |q| + sectsize == (SectorCount(data[n..], sectsize) + 1) * sectsize;
      if n == sectsize {
        assert Padded(data, sectsize) == data[..n] + q;
        assert data == data[..n] + data[n..];
      } else {
        assert data[n..] == [];
        assert Padded(data, sectsize) == data + Zeros(sectsize - n);
      }
    }
  }

  lemma {:induction false} PaddedDrop(data: seq<Byte>, sectsize: nat, skip: nat)
    requires sectsize > 0
    ensures Padded(DropSectors(data, sectsize, skip), sectsize) ==
            Padded(data, sectsize)[Min(skip * sectsize, |Padded(data, sectsize)|)..]
    decreases skip
  {
    if skip > 0 && data != [] {
      var rest := AfterSector(data, sectsize);
      PaddedDrop(rest, sectsize, skip - 1);
      assert skip * sectsize == sectsize + (skip - 1) * sectsize;
      var p, q := Padded(data, sectsize), Padded(rest, sectsize);
      assert p == FirstSector(data, sectsize) + q;
      var k := Min((skip - 1) * sectsize, |q|);
      assert Min(skip * sectsize, |p|) == sectsize + k;
      assert p[sectsize + k..] == q[k..];
    }
  }

  lemma {:induction false} SectorsAre(data: seq<Byte>, sectsize: nat, count: nat)
    requires sectsize > 0
    ensures Sectors(data, sectsize, count) ==
            Padded(data, sectsize)[..Min(count * sectsize, |Padded(data, sectsize)|)]
    decreases count
  {
    if count > 0 && data != [] {
      var rest := AfterSector(data, sectsize);
      SectorsAre(rest, sectsize, count - 1);
      assert count * sectsize == sectsize + (count - 1) * sectsize;
      var p, q := Padded(data, sectsize), Padded(rest, sectsize);
      var first := FirstSector(data, sectsize);
      assert p == first + q;
      var k := Min((count - 1) * sectsize, |q|);
      assert Min(count * sectsize, |p|) == sectsize + k;
      assert p[..sectsize + k] == first + q[..k];
    }
  }

  /** What is copied is the first `count` sectors of what is left of the padded data after
      `skip` sectors have been dropped. */
  lemma CopiedIs(data: seq<Byte>, sectsize: nat, skip: nat, count: nat)
    requires sectsize > 0
    ensures var p := Padded(data, sectsize);
            var left := p[Min(skip * sectsize, |p|)..];
            Copied(data, sectsize, skip, count) == left[..Min(count * sectsize, |left|)]
  {
    PaddedDrop(data, sectsize, skip);
    SectorsAre(DropSectors(data, sectsize, skip), sectsize, count);
  }

  lemma CopiedStep(data: seq<Byte>, sectsize: nat, skip: nat, count: nat)
    requires data != [] && sectsize > 0 && count > 0
    ensures var rest := AfterSector(data, sectsize);
            && Copied(data, sectsize, skip, count) ==
               (if skip > 0 then Copied(rest, sectsize, skip - 1, count)
                else FirstSector(data, sectsize) + Copied(rest, sectsize, 0, count - 1))
            && SectorCount(data, sectsize) == 1 + SectorCount(rest, sectsize)
            && (rest != [] ==> SectorCount(rest, sectsize) > 0)
  {
  }

  // ----- What the transfer loop writes -----

  /** The number after this one: the counter `sector` is 32 bits wide. */
  function NextNumber(sector: nat): (n: nat)
    requires sector < SECTOR_NUMBERS
    ensures n < SECTOR_NUMBERS
    ensures n == if sector + 1 < SECTOR_NUMBERS then sector + 1 else 0
  {
    (sector + 1) % SECTOR_NUMBERS
  }

  /** The sectors whose number is not below `skip`, up to `count` of them. */
  function Transferred(data: seq<Byte>, sectsize: nat, skip: nat, count: nat, sector: nat): seq<Byte>
    requires sector < SECTOR_NUMBERS
    decreases |data|
  {
    if sectsize == 0 || data == [] || count == 0 then []
    else if sector >= skip then
      FirstSector(data, sectsize)
      + Transferred(AfterSector(data, sectsize), sectsize, skip, count - 1, NextNumber(sector))
    else
      Transferred(AfterSector(data, sectsize), sectsize, skip, count, NextNumber(sector))
  }

  lemma TransferredNothing(data: seq<Byte>, sectsize: nat, skip: nat, count: nat, sector: nat)
    requires sector < SECTOR_NUMBERS && (sectsize == 0 || data == [] || count == 0)
    ensures Transferred(data, sectsize, skip, count, sector) == []
  {
  }

  function SkipLeft(skip: nat, sector: nat): nat {
    if sector < skip then skip - sector else 0
  }

  /** From sector number `sector` on, the counter does not wrap around, or that does not matter. */
  predicate NoWrap(data: seq<Byte>, sectsize: nat, skip: nat, count: nat, sector: nat)
    requires sectsize > 0
  {
    || skip == 0
    || sector + SectorCount(data, sectsize) <= SECTOR_NUMBERS
    || sector + SkipLeft(skip, sector) + count <= SECTOR_NUMBERS
  }

  lemma {:induction false} TransferredIsCopied(data: seq<Byte>, sectsize: nat, skip: nat, count: nat, sector: nat)
    requires sectsize > 0 && sector < SECTOR_NUMBERS && skip < SECTOR_NUMBERS
    requires NoWrap(data, sectsize, skip, count, sector)
    ensures Transferred(data, sectsize, skip, count, sector) == Copied(data, sectsize, SkipLeft(skip, sector), count)
    decreases |data|
  {
    hide Copied, FirstSector, AfterSector, SectorCount;
    if data == [] || count == 0 {
      CopiedNothing(data, sectsize, SkipLeft(skip, sector), count);
    } else {
      CopiedStep(data, sectsize, SkipLeft(skip, sector), count);
      var rest := AfterSector(data, sectsize);
      var count' := if sector >= skip then count - 1 else count;
      AfterSectorShrinks(data, sectsize);
      if rest == [] || count' == 0 {
        CopiedNothing(rest, sectsize, SkipLeft(skip, sector) - if sector >= skip then 0 else 1, count');
        TransferredNothing(rest, sectsize, skip, count', NextNumber(sector));
      } else {
        TransferredIsCopied(rest, sectsize, skip, count', NextNumber(sector));
      }
    }
  }

  lemma AfterSectorShrinks(data: seq<Byte>, sectsize: nat)
    requires data != [] && sectsize > 0
    ensures |AfterSector(data, sectsize)| < |data|
  {
  }

  lemma CopiedNothing(data: seq<Byte>, sectsize: nat, skip: nat, count: nat)
    requires data == [] || sectsize == 0 || count == 0
    ensures Copied(data, sectsize, skip, count) == []
  {
  }

  // ----- When the loop copies what it should -----

  ghost predicate AllZero(data: seq<Byte>) {
    forall k | 0 <= k < |data| :: data[k] == 0
  }

  lemma Distribute(a: nat, b: nat, sectsize: nat)
    ensures (a + b) * sectsize == a * sectsize + b * sectsize
  {
  }

  lemma ZeroSector(data: seq<Byte>, sectsize: nat)
    requires forall k | 0 <= k < |data| && k < sectsize :: data[k] == 0
    ensures AllZero(FirstSector(data, sectsize))
  {
  }

  lemma {:induction false} ZerosTransferred(data: seq<Byte>, sectsize: nat, skip: nat, count: nat, sector: nat)
    requires sector < SECTOR_NUMBERS && AllZero(data)
    ensures AllZero(Transferred(data, sectsize, skip, count, sector))
    decreases |data|
  {
    if sectsize > 0 && data != [] && count > 0 {
      ZeroSector(data, sectsize);
      var count' := if sector >= skip then count - 1 else count;
      ZerosTransferred(AfterSector(data, sectsize), sectsize, skip, count', NextNumber(sector));
    }
  }

  /** Byte `at`, the first of the sector that comes after `left` others and gets number 0 again,
      is the only one that is not 0. */
  ghost predicate MarksWrap(data: seq<Byte>, sectsize: nat, left: nat, at: nat) {
    at == left * sectsize && forall k | 0 <= k < |data| && k != at :: data[k] == 0
  }

  lemma MarkMoves(data: seq<Byte>, sectsize: nat, left: nat, at: nat)
    requires left > 0 && sectsize > 0 && data != [] && MarksWrap(data, sectsize, left, at)
    ensures at >= sectsize && AllZero(FirstSector(data, sectsize))
    ensures MarksWrap(AfterSector(data, sectsize), sectsize, left - 1, at - sectsize)
  {
    Distribute(1, left - 1, sectsize);
    ZeroSector(data, sectsize);
  }

  /** The sector that gets number 0 again is not transferred if there is anything to skip. */
  lemma {:induction false} WrapIsLost(data: seq<Byte>, sectsize: nat, skip: nat, count: nat, sector: nat, at: nat)
    requires sector < SECTOR_NUMBERS && sectsize > 0 && skip > 0
    requires MarksWrap(data, sectsize, SECTOR_NUMBERS - sector, at)
    ensures AllZero(Transferred(data, sectsize, skip, count, sector))
    decreases |data|
  {
    hide FirstSector, MarksWrap;
    if data != [] && count > 0 {
      MarkMoves(data, sectsize, SECTOR_NUMBERS - sector, at);
      var rest := AfterSector(data, sectsize);
      var count' := if sector >= skip then count - 1 else count;
      if sector + 1 < SECTOR_NUMBERS {
        WrapIsLost(rest, sectsize, skip, count', sector + 1, at - sectsize);
      } else if rest != [] && count' > 0 {
        assert AllZero(AfterSector(rest, sectsize)) by {
          MarkPassed(rest, sectsize, at - sectsize);
        }
        ZerosTransferred(AfterSector(rest, sectsize), sectsize, skip, count', 1);
      }
    }
  }

  lemma MarkPassed(data: seq<Byte>, sectsize: nat, at: nat)
    requires sectsize > 0 && MarksWrap(data, sectsize, 0, at)
    ensures AllZero(AfterSector(data, sectsize))
  {
    assert at == 0;
  }

  lemma SectorsFit(data: seq<Byte>, sectsize: nat, n: nat)
    requires sectsize > 0
    ensures SectorCount(data, sectsize) <= n <==> |data| <= n * sectsize
  {
    hide SectorCount, Padded;
    PaddedIs(data, sectsize);
    var c := SectorCount(data, sectsize);
    if c <= n {
      Distribute(c, n - c, sectsize);
    } else {
      Distribute(n, c - n, sectsize);
      Distribute(1, c - n - 1, sectsize);
    }
  }

  /** For every size of input, sector size, skip and count: the loop copies what it should,
      whatever the input holds, exactly if nothing is to be skipped, or the input has at most
      2^32 sectors, or no sector from number 2^32 on is asked for. */
  lemma TransferIsCopyIff(size: nat, sectsize: nat, skip: nat, count: nat)
    requires sectsize > 0 && skip < SECTOR_NUMBERS
    ensures (forall data: seq<Byte> | |data| == size ::
               Transferred(data, sectsize, skip, count, 0) == Copied(data, sectsize, skip, count))
       <==> skip == 0 || size <= SECTOR_NUMBERS * sectsize || skip + count <= SECTOR_NUMBERS
  {
    hide Transferred, Copied, SectorCount;
    if skip == 0 || size <= SECTOR_NUMBERS * sectsize || skip + count <= SECTOR_NUMBERS {
      forall data: seq<Byte> | |data| == size
        ensures Transferred(data, sectsize, skip, count, 0) == Copied(data, sectsize, skip, count)
      {
        SectorsFit(data, sectsize, SECTOR_NUMBERS);
        TransferredIsCopied(data, sectsize, skip, count, 0);
      }
    } else {
      var at := SECTOR_NUMBERS * sectsize;
      var data: seq<Byte> := seq(size, k => if k == at then 1 else 0);
      WrapIsLost(data, sectsize, skip, count, 0, at);
      MarkIsDue(data, sectsize, skip, count, at);
      assert Transferred(data, sectsize, skip, count, 0) != Copied(data, sectsize, skip, count);
    }
  }

  lemma MarkIsDue(data: seq<Byte>, sectsize: nat, skip: nat, count: nat, at: nat)
    requires sectsize > 0 && skip < SECTOR_NUMBERS < skip + count
    requires at == SECTOR_NUMBERS * sectsize < |data| && data[at] == 1
    ensures !AllZero(Copied(data, sectsize, skip, count))
  {
    hide Copied, SectorCount, Padded;
    PaddedIs(data, sectsize);
    CopiedIs(data, sectsize, skip, count);
    var p := Padded(data, sectsize);
    assert p[at] == p[..|data|][at] == 1;
    Distribute(skip, SECTOR_NUMBERS - skip, sectsize);
    Distribute(SECTOR_NUMBERS - skip, skip + count - SECTOR_NUMBERS, sectsize);
    Distribute(1, skip + count - SECTOR_NUMBERS - 1, sectsize);
    SliceHas(p, skip * sectsize, count * sectsize, at);
  }

  lemma SliceHas(p: seq<Byte>, from: nat, length: nat, at: nat)
    requires from <= at < |p| && at < from + length && p[at] == 1
    ensures var left := p[Min(from, |p|)..];
            !AllZero(left[..Min(length, |left|)])
  {
    var left := p[from..];
    assert left[..Min(length, |left|)][at - from] == 1;
  }

  // ----- The command -----

  /** What the system does on each read or write: whether it fails, and how many bytes of those
      asked for it handles, but always at least one. */
  datatype Schedule = Schedule(fails: nat -> bool, sizes: nat -> nat)

  function Granted(schedule: Schedule, call: nat, want: nat): (n: nat)
    ensures n <= want && (want > 0 ==> n > 0)
  {
    if want == 0 then 0 else if schedule.sizes(call) == 0 then 1 else Min(schedule.sizes(call), want)
  }

  /** None of these calls fails. */
  ghost predicate Granting(schedule: Schedule, from: nat, to: nat) {
    forall call | from <= call < to :: !schedule.fails(call)
  }

  class Transfer {
    const schedule: Schedule
    const input: seq<Byte>
    var pos: nat
    var output: seq<Byte>
    var calls: nat
    const sectsize: nat
    const skip: nat
    var nsectors: nat
    var sector: nat
    var eof: bool
    var nbytes: nat
    const buffer: array<Byte>

    ghost predicate Valid()
      reads this
    {
      pos <= |input| && buffer.Length == sectsize < 0x1_0000 && nsectors < SECTOR_NUMBERS && sector < SECTOR_NUMBERS
    }

    constructor (schedule: Schedule, input: seq<Byte>, sectsize: nat, skip: nat, count: nat)
      requires sectsize < 0x1_0000 && skip < SECTOR_NUMBERS && count < SECTOR_NUMBERS
      ensures Valid() && fresh(buffer)
      ensures this.schedule == schedule && this.input == input && this.sectsize == sectsize && this.skip == skip
      ensures nsectors == count && pos == 0 && output == [] && sector == 0 && !eof
    {
      this.schedule, this.input, this.sectsize, this.skip := schedule, input, sectsize, skip;
      nsectors, pos, output, calls, sector, eof, nbytes := count, 0, [], 0, 0, false, 0;
      buffer := new Byte[sectsize](_ => 0);
    }

    /** read(): some of the bytes asked for, none only at the end of the input. */
    method Read(at: nat) returns (n: int)
      requires Valid() && at <= sectsize
      modifies this`pos, this`calls, buffer
      ensures Valid()
      ensures calls == old(calls) + 1 && (n < 0 <==> schedule.fails(old(calls))) && (n < 0 ==> pos == old(pos))
      ensures n >= 0 ==>
                && n <= sectsize - at && pos == old(pos) + n
                && (n == 0 ==> at == sectsize || pos == |input|)
                && buffer[..at] == old(buffer[..at]) && buffer[at..at + n] == input[old(pos)..pos]
    {
      var call := calls;
      calls := calls + 1;
      if schedule.fails(call) {
        return -1;
      }
      var size := Granted(schedule, call, Min(sectsize - at, |input| - pos));
      var i := 0;
      while i < size
        invariant 0 <= i <= size
        invariant buffer[..at] == old(buffer[..at]) && buffer[at..at + i] == input[pos..pos + i]
        modifies buffer
      {
        buffer[at + i] := input[pos + i];
        i := i + 1;
      }
      pos := pos + size;
      return size;
    }

    /** dd_read: fill the buffer as far as the input goes. */
    method DdRead() returns (ok: bool)
      requires Valid()
      modifies this`pos, this`calls, this`nbytes, this`eof, buffer
      ensures Valid()
      ensures ok ==>
                && nbytes == Min(sectsize, |input| - old(pos)) && pos == old(pos) + nbytes
                && buffer[..nbytes] == input[old(pos)..pos]
                && eof == (old(eof) || nbytes == 0)
      ensures calls >= old(calls) && (ok <==> Granting(schedule, old(calls), calls))
    {
      nbytes := 0;
      ghost var from := pos;
      var n := Read(0);
      if n < 0 {
        return false;
      }
      nbytes := n;
      while nbytes < sectsize && n > 0
        invariant Valid() && 0 <= n && nbytes <= sectsize
        invariant pos == from + nbytes && buffer[..nbytes] == input[from..pos]
        invariant n == 0 ==> nbytes == sectsize || pos == |input|
        invariant eof == old(eof) && calls >= old(calls) && Granting(schedule, old(calls), calls)
        decreases sectsize - nbytes, n
      {
        ghost var before, mid := buffer[..nbytes], pos;
        n := Read(nbytes);
        if n < 0 {
          return false;
        }
        assert buffer[..nbytes + n] == before + buffer[nbytes..nbytes + n];
        assert input[from..pos] == input[from..mid] + input[mid..pos];
        nbytes := nbytes + n;
      }
      eof := eof || nbytes == 0;
      return true;
    }

    /** The padding loop of cmd_dd. */
    method PadBuffer(ghost data: seq<Byte>)
      requires Valid() && nbytes == Min(sectsize, |data|) && buffer[..nbytes] == data[..nbytes]
      modifies buffer
      ensures buffer[..] == FirstSector(data, sectsize)
    {
      var i := nbytes;
      while i < sectsize
        invariant nbytes <= i <= sectsize
        invariant buffer[..i] == data[..nbytes] + Zeros(i - nbytes)
      {
        buffer[i] := 0;
        i := i + 1;
        assert buffer[..i] == buffer[..i - 1] + [0];
      }
      assert buffer[..] == buffer[..i];
    }

    /** dd_write: write the whole buffer, in as many pieces as it takes. */
    method DdWrite() returns (ok: bool)
      requires Valid() && sectsize > 0
      modifies this`output, this`calls
      ensures Valid()
      ensures ok ==> output == old(output) + buffer[..]
      ensures old(output) <= output <= old(output) + buffer[..]
      ensures calls >= old(calls) && (ok <==> Granting(schedule, old(calls), calls))
    {
      var written := 0;
      ghost var before := output;
      while written < sectsize
        invariant 0 <= written <= sectsize
        invariant output == before + buffer[..written]
        invariant calls >= old(calls) && Granting(schedule, old(calls), calls)
      {
        var call := calls;
        calls := calls + 1;
        if schedule.fails(call) {
          return false;
        }
        var n := Granted(schedule, call, sectsize - written);
        output := output + buffer[written..written + n];
        assert buffer[..written] + buffer[written..written + n] == buffer[..written + n];
        written := written + n;
      }
      assert buffer[..written] == buffer[..];
      return true;
    }

    /** The transfer loop of cmd_dd.  It succeeds exactly if no read or write that it makes fails.
        Then the output is what is to be transferred, however the system cuts reads and writes up;
        else the output is a prefix of that. */
    method Run() returns (ok: bool)
      requires Valid() && pos == 0 && output == [] && sector == 0 && !eof
      modifies this, buffer
      ensures ok ==> output == Transferred(input, sectsize, skip, old(nsectors), 0)
      ensures output <= Transferred(input, sectsize, skip, old(nsectors), 0)
      ensures calls >= old(calls) && (ok <==> Granting(schedule, old(calls), calls))
    {
      hide Transferred, FirstSector;
      ghost var target := Transferred(input, sectsize, skip, nsectors, 0);
      assert input[0..] == input;
      while !eof && nsectors > 0
        invariant Valid()
        invariant target == output + Transferred(input[pos..], sectsize, skip, nsectors, sector)
        invariant eof ==> pos == |input| || sectsize == 0
        invariant calls >= old(calls) && Granting(schedule, old(calls), calls)
        decreases |input| - pos, !eof
      {
        ghost var data := input[pos..];
        ok := DdRead();
        if !ok {
          return;
        }
        if !eof {
          ok := CopySector(data);
          if !ok {
            return;
          }
        }
      }
      ok := true;
      TransferredNothing(input[pos..], sectsize, skip, nsectors, sector);
    }

    /** Pad the sector that has been read, and write it unless it is to be skipped. */
    method CopySector(ghost data: seq<Byte>) returns (ok: bool)
      requires Valid() && data != [] && sectsize > 0 && nsectors > 0
      requires nbytes == Min(sectsize, |data|) && buffer[..nbytes] == data[..nbytes]
      requires input[pos..] == AfterSector(data, sectsize)
      modifies this`output, this`calls, this`nsectors, this`sector, buffer
      ensures Valid()
      ensures var due := Transferred(data, sectsize, skip, old(nsectors), old(sector));
              && old(output) <= output <= old(output) + due
              && (ok ==> old(output) + due == output + Transferred(input[pos..], sectsize, skip, nsectors, sector))
      ensures calls >= old(calls) && (ok <==> Granting(schedule, old(calls), calls))
    {
      hide FirstSector, AfterSector;
      PadBuffer(data);
      if sector >= skip {
        ok := DdWrite();
        ghost var rest := Transferred(input[pos..], sectsize, skip, nsectors - 1, NextNumber(sector));
        assert old(output) + (buffer[..] + rest) == (old(output) + buffer[..]) + rest;
        if !ok {
          return;
        }
        nsectors := nsectors - 1;
      }
      sector := NextNumber(sector);
      ok := true;
    }
  }
}
