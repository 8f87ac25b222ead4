/** The table of Modbus function handlers: registration, removal and dispatch. */
module ModbusHandlers {

  /** A handler, or NULL. */
  datatype Handler = Null | Handler(id: nat)

  datatype Slot = Slot(code: nat, handler: Handler)

  const EMPTY := Slot(0, Null)

  datatype Status = NoError | InvalidArgument | NoResources

  predicate ValidCode(code: nat) {
    0 < code <= 127
  }

  // ----- The table as a list -----

  /** The first slot that is free or already has this handler, or the length of the table. */
  function FreeOrSame(slots: seq<Slot>, h: Handler): (k: nat)
    ensures k <= |slots|
    ensures forall i | 0 <= i < k :: slots[i].handler != Null && slots[i].handler != h
    ensures k < |slots| ==> slots[k].handler == Null || slots[k].handler == h
  {
    if slots == [] || slots[0].handler == Null || slots[0].handler == h then 0 else 1 + FreeOrSame(slots[1..], h)
  }

  /** A full search for a code: the lowest slot that has it, or the length of the table. */
  function FindCode(slots: seq<Slot>, code: nat): (k: nat)
    ensures k <= |slots|
    ensures forall i | 0 <= i < k :: slots[i].code != code
    ensures k < |slots| ==> slots[k].code == code
  {
    if slots == [] || slots[0].code == code then 0 else 1 + FindCode(slots[1..], code)
  }

  /** One call of eMBRegisterCB; a null handler asks for removal. */
  datatype Request = Request(code: nat, handler: Handler)

  function Register(slots: seq<Slot>, r: Request): seq<Slot> {
    if !ValidCode(r.code) then slots
    else if r.handler != Null then
      var k := FreeOrSame(slots, r.handler);
      if k < |slots| then slots[k := Slot(r.code, r.handler)] else slots
    else
      var k := FindCode(slots, r.code);
      if k < |slots| then slots[k := EMPTY] else slots
  }

  function StatusOf(slots: seq<Slot>, r: Request): Status {
    if !ValidCode(r.code) then InvalidArgument
    else if r.handler != Null && FreeOrSame(slots, r.handler) == |slots| then NoResources
    else NoError
  }

  function RegisterAll(slots: seq<Slot>, rs: seq<Request>): seq<Slot>
    decreases |rs|
  {
    if rs == [] then slots else RegisterAll(Register(slots, rs[0]), rs[1..])
  }

  /** Dispatch gives up at the first slot whose code is 0. */
  function Dispatch(slots: seq<Slot>, code: nat): Handler {
    if slots == [] || slots[0].code == 0 then Null
    else if slots[0].code == code then slots[0].handler
    else Dispatch(slots[1..], code)
  }

  /** A full search of the table. */
  function Search(slots: seq<Slot>, code: nat): Handler {
    var k := FindCode(slots, code);
    if k < |slots| then slots[k].handler else Null
  }

  // ----- What every run keeps -----

  /** A slot has code 0 exactly if its handler is NULL, and its code is at most 127. */
  predicate GoodSlot(s: Slot) {
    (s.code == 0 <==> s.handler == Null) && s.code <= 127
  }

  ghost predicate GoodTable(slots: seq<Slot>) {
    forall s | s in slots :: GoodSlot(s)
  }

  lemma RegisterKeepsGood(slots: seq<Slot>, r: Request)
    requires GoodTable(slots)
    ensures GoodTable(Register(slots, r)) && |Register(slots, r)| == |slots|
  {
  }

  lemma {:induction false} RunKeepsGood(slots: seq<Slot>, rs: seq<Request>)
    requires GoodTable(slots)
    ensures GoodTable(RegisterAll(slots, rs))
    decreases |rs|
  {
    if rs != [] {
      RegisterKeepsGood(slots, rs[0]);
      RunKeepsGood(Register(slots, rs[0]), rs[1..]);
    }
  }

  /** A request is refused exactly for a code that is not allowed, or if there is neither a free slot
      nor one with the handler; then nothing changes.  Otherwise one slot at most is changed: to the
      code and the handler, where it was free or had the handler, or to an empty one, the lowest with
      the code. */
  lemma RegisterMeans(slots: seq<Slot>, r: Request)
    ensures var t := Register(slots, r);
            var status := StatusOf(slots, r);
            && (status == InvalidArgument <==> !ValidCode(r.code))
            && (status == NoResources <==>
                  ValidCode(r.code) && r.handler != Null
                  && forall s | s in slots :: s.handler != Null && s.handler != r.handler)
            && (status != NoError ==> t == slots)
            && (status == NoError && r.handler != Null ==>
                  exists k | 0 <= k < |slots| ::
                    t == slots[k := Slot(r.code, r.handler)]
                    && (slots[k].handler == Null || slots[k].handler == r.handler))
            && (status == NoError && r.handler == Null ==>
                  (t == slots && forall s | s in slots :: s.code != r.code)
                  || exists k | 0 <= k < |slots| ::
                       t == slots[k := EMPTY] && slots[k].code == r.code
                       && forall i | 0 <= i < k :: slots[i].code != r.code)
  {
    var k := FreeOrSame(slots, r.handler);
    if k < |slots| {
      assert slots[k] in slots;
    }
  }

  /** After a registration that succeeds, a full search for the code finds a handler that is
      registered for it. */
  lemma RegisteredIsFound(slots: seq<Slot>, r: Request)
    requires GoodTable(slots) && r.handler != Null && StatusOf(slots, r) == NoError
    ensures var t := Register(slots, r);
            && Slot(r.code, r.handler) in t && Search(t, r.code) != Null && Slot(r.code, Search(t, r.code)) in t
  {
    var t := Register(slots, r);
    RegisterKeepsGood(slots, r);
    var k := FreeOrSame(slots, r.handler);
    assert t[k] == Slot(r.code, r.handler);
    var j := FindCode(t, r.code);
    assert t[j] in t && GoodSlot(t[j]);
  }

  /** In a packed table, registering a handler again changes its code: it has no other one. */
  lemma RegisteredAgain(slots: seq<Slot>, n: nat, r: Request, code: nat)
    requires Packed(slots, n) && r.handler != Null && StatusOf(slots, r) == NoError
    ensures Slot(code, r.handler) in Register(slots, r) <==> code == r.code
  {
    var t := Register(slots, r);
    var k := FreeOrSame(slots, r.handler);
    assert t[k] == Slot(r.code, r.handler);
  }

  /** On a good table, whatever dispatch finds is a handler registered for that very code; so
      it never calls through a null handler, and codes 0 and 128 to 255 find nothing. */
  lemma {:induction false} DispatchIsSound(slots: seq<Slot>, code: nat)
    requires GoodTable(slots)
    ensures Dispatch(slots, code) != Null ==> Slot(code, Dispatch(slots, code)) in slots && ValidCode(code)
    ensures !ValidCode(code) ==> Dispatch(slots, code) == Null
  {
    if slots != [] {
      assert GoodSlot(slots[0]);
      assert forall s | s in slots[1..] :: s in slots;
      DispatchIsSound(slots[1..], code);
    }
  }

  /** Codes that the protocol does not allow find nothing after any run. */
  lemma IllegalCodesFindNothing(slots: seq<Slot>, rs: seq<Request>, code: nat)
    requires GoodTable(slots) && (code == 0 || 128 <= code)
    ensures Dispatch(RegisterAll(slots, rs), code) == Null
  {
    RunKeepsGood(slots, rs);
    DispatchIsSound(RegisterAll(slots, rs), code);
  }

  // ----- When giving up early is right -----

  /** No empty slot comes before the lowest slot with this code, if there is one. */
  ghost predicate Reachable(slots: seq<Slot>, code: nat) {
    var k := FindCode(slots, code);
    k < |slots| ==> forall i | 0 <= i < k :: slots[i].code != 0
  }

  /** Dispatch agrees with a full search for a code exactly if no empty slot hides it. */
  lemma {:induction false} DispatchIsSearchIff(slots: seq<Slot>, code: nat)
    requires GoodTable(slots) && ValidCode(code)
    ensures Dispatch(slots, code) == Search(slots, code) <==> Reachable(slots, code)
  {
    if slots != [] {
      var rest := slots[1..];
      assert GoodSlot(slots[0]);
      assert forall s | s in rest :: s in slots;
      DispatchIsSearchIff(rest, code);
      if slots[0].code == 0 {
        var k := FindCode(slots, code);
        if k < |slots| {
          assert GoodSlot(slots[k]);
          assert !(forall i | 0 <= i < k :: slots[i].code != 0);
        }
      } else if slots[0].code != code {
        assert FindCode(slots, code) == 1 + FindCode(rest, code);
        assert forall i | 0 < i < |slots| :: slots[i] == rest[i - 1];
        assert Reachable(slots, code) <==> Reachable(rest, code) by {
          if Reachable(slots, code) && FindCode(rest, code) < |rest| {
            assert forall i | 0 <= i < FindCode(rest, code) :: rest[i].code == slots[i + 1].code;
          }
        }
      }
    }
  }

  /** The occupied slots come first, and no handler is in two of them. */
  ghost predicate Packed(slots: seq<Slot>, n: nat) {
    && n <= |slots| && GoodTable(slots)
    && (forall i | 0 <= i < |slots| :: slots[i].handler == Null <==> n <= i)
    && (forall i, j | 0 <= i < j < n :: slots[i].handler != slots[j].handler)
  }

  /** A removal clears the last occupied slot or nothing. */
  ghost predicate RemovesLast(slots: seq<Slot>, n: nat, r: Request) {
    r.handler == Null && ValidCode(r.code) ==>
      FindCode(slots, r.code) == |slots| || FindCode(slots, r.code) == n - 1
  }

  lemma RegisterKeepsPacked(slots: seq<Slot>, n: nat, r: Request) returns (n': nat)
    requires Packed(slots, n) && RemovesLast(slots, n, r)
    ensures Packed(Register(slots, r), n')
  {
    RegisterKeepsGood(slots, r);
    var slots' := Register(slots, r);
    if !ValidCode(r.code) {
      n' := n;
    } else if r.handler != Null {
      var k := FreeOrSame(slots, r.handler);
      assert n < |slots| ==> slots[n].handler == Null;
      assert k <= n;
      n' := if k == n && n < |slots| then n + 1 else n;
    } else {
      var k := FindCode(slots, r.code);
      if k < |slots| {
        assert slots[k] in slots;
        n' := n - 1;
      } else {
        n' := n;
      }
    }
  }

  /** Every removal of a run clears the last occupied slot or nothing. */
  ghost predicate RemovesLastAlways(slots: seq<Slot>, rs: seq<Request>)
    decreases |rs|
  {
    rs != [] ==>
      && (forall n: nat :: Packed(slots, n) ==> RemovesLast(slots, n, rs[0]))
      && RemovesLastAlways(Register(slots, rs[0]), rs[1..])
  }

  lemma {:induction false} RunKeepsPacked(slots: seq<Slot>, n: nat, rs: seq<Request>) returns (n': nat)
    requires Packed(slots, n) && RemovesLastAlways(slots, rs)
    ensures Packed(RegisterAll(slots, rs), n')
    decreases |rs|
  {
    n' := n;
    if rs != [] {
      n' := RegisterKeepsPacked(slots, n, rs[0]);
      n' := RunKeepsPacked(Register(slots, rs[0]), n', rs[1..]);
    }
  }

  lemma PackedIsReachable(slots: seq<Slot>, n: nat, code: nat)
    requires Packed(slots, n) && ValidCode(code)
    ensures Reachable(slots, code)
  {
    var k := FindCode(slots, code);
    if k < |slots| {
      assert slots[k] in slots;
      assert forall i | 0 <= i < k :: slots[i] in slots;
    }
  }

  /** If every removal clears the last occupied slot, then after any run dispatch finds what a
      full search finds. */
  lemma DispatchIsSearchOnPackedRuns(slots: seq<Slot>, n: nat, rs: seq<Request>, code: nat)
    requires Packed(slots, n) && RemovesLastAlways(slots, rs) && ValidCode(code)
    ensures Dispatch(RegisterAll(slots, rs), code) == Search(RegisterAll(slots, rs), code)
  {
    var n' := RunKeepsPacked(slots, n, rs);
    PackedIsReachable(RegisterAll(slots, rs), n', code);
    DispatchIsSearchIff(RegisterAll(slots, rs), code);
  }

  /** Without that condition a registered handler can be hidden: two registrations, then the
      removal of the first. */
  lemma RemovalHidesHandler()
    ensures var requests := [Request(1, Handler(10)), Request(2, Handler(20)), Request(1, Null)];
            var slots := RegisterAll([EMPTY, EMPTY], requests);
            slots == [EMPTY, Slot(2, Handler(20))] && Search(slots, 2) == Handler(20) && Dispatch(slots, 2) == Null
  {
    var s0 := [EMPTY, EMPTY];
    var r0, r1, r2 := Request(1, Handler(10)), Request(2, Handler(20)), Request(1, Null);
    var s1 := Register(s0, r0);
    assert s1 == [Slot(1, Handler(10)), EMPTY];
    var s2 := Register(s1, r1);
    assert s1[1..] == [EMPTY];
    assert s2 == [Slot(1, Handler(10)), Slot(2, Handler(20))];
    var s3 := Register(s2, r2);
    assert s3 == [EMPTY, Slot(2, Handler(20))];
    assert [r0, r1, r2][1..] == [r1, r2] && [r1, r2][1..] == [r2] && [r2][1..] == [];
    assert s3[1..] == [Slot(2, Handler(20))];
    assert FindCode(s3, 2) == 1;
  }

  // ----- The code -----

  class HandlerTable {
    const slots: array<Slot>

    ghost predicate Valid()
      reads this, slots
    {
      GoodTable(slots[..])
    }

    /** The static initializer: the configured handlers, then empty slots. */
    constructor (configured: seq<Slot>, size: nat)
      requires |configured| <= size
      requires forall s | s in configured :: ValidCode(s.code) && s.handler != Null
      ensures Valid() && fresh(slots)
      ensures slots[..] == configured + seq(size - |configured|, _ => EMPTY)
    {
      slots := new Slot[size](i => if 0 <= i < |configured| then configured[i] else EMPTY);
      new;
      forall s | s in slots[..]
        ensures GoodSlot(s)
      {
        var i :| 0 <= i < slots.Length && slots[i] == s;
        assert i < |configured| ==> configured[i] in configured;
      }
    }

    /** eMBRegisterCB. */
    method RegisterCB(code: nat, handler: Handler) returns (status: Status)
      requires Valid()
      modifies slots
      ensures Valid()
      ensures slots[..] == Register(old(slots[..]), Request(code, handler))
      ensures status == StatusOf(old(slots[..]), Request(code, handler))
    {
      ghost var table := slots[..];
      RegisterKeepsGood(table, Request(code, handler));
      if !(0 < code <= 127) {
        return InvalidArgument;
      }
      var i := 0;
      if handler != Null {
        while i < slots.Length && slots[i].handler != Null && slots[i].handler != handler
          invariant 0 <= i <= slots.Length
          invariant forall j | 0 <= j < i :: table[j].handler != Null && table[j].handler != handler
        {
          i := i + 1;
        }
        if i < slots.Length {
          slots[i] := Slot(code, handler);
        }
        status := if i != slots.Length then NoError else NoResources;
      } else {
        while i < slots.Length && slots[i].code != code
          invariant 0 <= i <= slots.Length
          invariant forall j | 0 <= j < i :: table[j].code != code
        {
          i := i + 1;
        }
        if i < slots.Length {
          slots[i] := EMPTY;
        }
        status := NoError;
      }
    }

    /** The scan of eMBPoll; Null stands for the exception "illegal function". */
    method FindHandler(code: nat) returns (handler: Handler)
      requires Valid()
      ensures handler == Dispatch(slots[..], code)
    {
      handler := Null;
      var i := 0;
      assert slots[0..] == slots[..];
      while i < slots.Length
        invariant 0 <= i <= slots.Length
        invariant Dispatch(slots[i..], code) == Dispatch(slots[..], code)
        invariant handler == Null
      {
        assert slots[i..][1..] == slots[i + 1..];
        if slots[i].code == 0 {
          return;
        } else if slots[i].code == code {
          return slots[i].handler;
        }
        i := i + 1;
      }
    }
  }
}
