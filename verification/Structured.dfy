/** Scripts as programs with nested if and loop statements, their ordinary meaning and what NSH
    makes of them, and the theorem that the flat, stack-and-jump machine computes the latter. */
module Structured {
  import opened ParserState
  import opened FlatMachine

  /** A list of statements.  `then`, `else` and `do` may carry the first command of what they
      open; an empty command there means that they stand alone. */
  datatype Block =
    | Nil
    | Cmd(words: seq<Token>, next: Block)
    | Cond(inverted: bool, cond: seq<Token>,
           thenCmd: seq<Token>, thn: Block,
           hasElse: bool, elseCmd: seq<Token>, els: Block,
           next: Block)
    | Loop(until: bool, cond: seq<Token>, doCmd: seq<Token>, body: Block, next: Block)

  function Head(c: seq<Token>, b: Block): Block {
    if c == [] then b else Cmd(c, b)
  }

  // ----- The script text, as a list of commands -----

  function IfWords(inverted: bool, cond: seq<Token>): seq<Token> {
    (if inverted then [If, Bang] else [If]) + cond
  }

  function LoopWords(until: bool, cond: seq<Token>): seq<Token> {
    [if until then Until else While] + cond
  }

  function Flatten(b: Block): seq<seq<Token>> {
    match b
    case Nil => []
    case Cmd(c, next) => [c] + Flatten(next)
    case Cond(inverted, cond, thenCmd, thn, hasElse, elseCmd, els, next) =>
      [IfWords(inverted, cond)] + [[Then] + thenCmd] + Flatten(thn)
      + ElsePart(hasElse, elseCmd, Flatten(els)) + [[Fi]] + Flatten(next)
    case Loop(until, cond, doCmd, body, next) =>
      [LoopWords(until, cond)] + [[Do] + doCmd] + Flatten(body) + [[Done]] + Flatten(next)
  }

  function ElsePart(hasElse: bool, elseCmd: seq<Token>, els: seq<seq<Token>>): seq<seq<Token>> {
    if hasElse then [[Else] + elseCmd] + els else []
  }

  // ----- The ordinary meaning -----

  datatype State = State(history: History, fail: bool)

  /** `inIf` tells whether the `break` stood inside an if of its loop; it does not matter to the
      meaning. */
  datatype Outcome = Normal | Broke(inIf: bool) | Stopped

  datatype Result = Timeout | Result(out: Outcome, s: State)

  function RunCommand(w: World, c: seq<Token>, s: State): State {
    var h := After(s.history, c, s.fail);
    State(h, w.fails(h))
  }

  function FromBranch(r: Result): Result {
    if r.Result? && r.out.Broke? then r.(out := Broke(true)) else r
  }

  /** The meaning of a block, or Timeout if it takes more than `fuel` nested steps.  A failing
      condition only chooses a branch; a failing command stops the script unless `set +e` is
      in force; `break` leaves the innermost loop, and outside of loops does nothing. */
  function Exec(w: World, b: Block, inLoop: bool, s: State, fuel: nat): Result
    decreases fuel
  {
    if b.Nil? then
      Result(Normal, s)
    else if fuel == 0 then
      Timeout
    else
      match b
      case Cmd(c, next) =>
        if IsBreak(c) then
          if inLoop then Result(Broke(false), s.(fail := false)) else Exec(w, next, inLoop, s.(fail := false), fuel - 1)
        else
          var s' := RunCommand(w, c, s);
          if s'.fail && !w.ignores(s'.history) then Result(Stopped, s') else Exec(w, next, inLoop, s', fuel - 1)
      case Cond(inverted, cond, thenCmd, thn, hasElse, elseCmd, els, next) =>
        var s' := RunCommand(w, cond, s);
        var branch := if s'.fail == inverted then Head(thenCmd, thn) else if hasElse then Head(elseCmd, els) else Nil;
        var r := Exec(w, branch, inLoop, s'.(fail := false), fuel - 1);
        if r.Result? && r.out == Normal then Exec(w, next, inLoop, r.s, fuel - 1) else FromBranch(r)
      case Loop(until, cond, doCmd, body, next) =>
        var s' := RunCommand(w, cond, s);
        if s'.fail != until then
          Exec(w, next, inLoop, s'.(fail := false), fuel - 1)
        else
          var r := Exec(w, Head(doCmd, body), true, s'.(fail := false), fuel - 1);
          if r.Timeout? || r.out == Stopped then r
          else Exec(w, if r.out == Normal then b else next, inLoop, r.s, fuel - 1)
  }

  // ----- What NSH makes of a loop inside a loop -----

  /** The loops of this list of statements that stand outside of all its ifs, as a program. */
  function BareLoops(b: Block): Block {
    match b
    case Nil => Nil
    case Cmd(_, next) => BareLoops(next)
    case Cond(_, _, _, _, _, _, _, next) => BareLoops(next)
    case Loop(_, _, _, _, next) => LoopThen(b, BareLoops(next))
  }

  /** Loop b, followed by `next`. */
  function LoopThen(b: Block, next: Block): (r: Block)
    requires b.Loop?
    ensures r.Loop? && (next == b.next ==> r == b)
  {
    Loop(b.until, b.cond, b.doCmd, b.body, next)
  }

  /** What NSH makes of a block.  It differs from the meaning in one thing: a loop does not keep
      the loops that stand bare in its body from running.  So when a loop body is passed over, or
      what is left of it after `break`, its bare loops are run. */
  function Acts(w: World, b: Block, inLoop: bool, s: State, fuel: nat): Result
    decreases fuel
  {
    if b.Nil? then
      Result(Normal, s)
    else if fuel == 0 then
      Timeout
    else
      match b
      case Cmd(c, next) =>
        if IsBreak(c) then
          if inLoop then
            var r := Acts(w, BareLoops(next), false, s.(fail := false), fuel - 1);
            if r.Result? && r.out == Normal then r.(out := Broke(false)) else r
          else Acts(w, next, inLoop, s.(fail := false), fuel - 1)
        else
          var s' := RunCommand(w, c, s);
          if s'.fail && !w.ignores(s'.history) then Result(Stopped, s') else Acts(w, next, inLoop, s', fuel - 1)
      case Cond(inverted, cond, thenCmd, thn, hasElse, elseCmd, els, next) =>
        var s' := RunCommand(w, cond, s);
        var branch := if s'.fail == inverted then Head(thenCmd, thn) else if hasElse then Head(elseCmd, els) else Nil;
        var r := Acts(w, branch, inLoop, s'.(fail := false), fuel - 1);
        if r.Result? && r.out == Normal then Acts(w, next, inLoop, r.s, fuel - 1) else FromBranch(r)
      case Loop(until, cond, doCmd, body, next) =>
        var s' := RunCommand(w, cond, s);
        if s'.fail != until then
          var r := Acts(w, BareLoops(body), false, s'.(fail := false), fuel - 1);
          if r.Result? && r.out == Normal then Acts(w, next, inLoop, r.s, fuel - 1) else r
        else
          var r := Acts(w, Head(doCmd, body), true, s'.(fail := false), fuel - 1);
          if r.Timeout? || r.out == Stopped then r
          else Acts(w, if r.out == Normal then b else next, inLoop, r.s, fuel - 1)
  }

  // ----- The two, one step at a time -----

  lemma ExecNothing(w: World, inLoop: bool, s: State, fuel: nat)
    ensures Exec(w, Nil, inLoop, s, fuel) == Result(Normal, s)
  {
  }

  lemma ExecNoFuel(w: World, b: Block, inLoop: bool, s: State)
    requires !b.Nil?
    ensures Exec(w, b, inLoop, s, 0) == Timeout
  {
  }

  lemma ExecCmd(w: World, c: seq<Token>, next: Block, inLoop: bool, s: State, fuel: nat)
    requires fuel > 0
    ensures Exec(w, Cmd(c, next), inLoop, s, fuel) ==
            if IsBreak(c) then
              if inLoop then Result(Broke(false), s.(fail := false))
              else Exec(w, next, inLoop, s.(fail := false), fuel - 1)
            else
              var s' := RunCommand(w, c, s);
              if s'.fail && !w.ignores(s'.history) then Result(Stopped, s') else Exec(w, next, inLoop, s', fuel - 1)
  {
  }

  lemma ExecCond(w: World, b: Block, inLoop: bool, s: State, fuel: nat)
    requires b.Cond? && fuel > 0
    ensures var s' := RunCommand(w, b.cond, s);
            var branch := if s'.fail == b.inverted then Head(b.thenCmd, b.thn)
                          else if b.hasElse then Head(b.elseCmd, b.els) else Nil;
            var r := Exec(w, branch, inLoop, s'.(fail := false), fuel - 1);
            Exec(w, b, inLoop, s, fuel) ==
            if r.Result? && r.out == Normal then Exec(w, b.next, inLoop, r.s, fuel - 1) else FromBranch(r)
  {
  }

  lemma ExecLoop(w: World, b: Block, inLoop: bool, s: State, fuel: nat)
    requires b.Loop? && fuel > 0
    ensures var s' := RunCommand(w, b.cond, s);
            var r := Exec(w, Head(b.doCmd, b.body), true, s'.(fail := false), fuel - 1);
            Exec(w, b, inLoop, s, fuel) ==
            if s'.fail != b.until then Exec(w, b.next, inLoop, s'.(fail := false), fuel - 1)
            else if r.Timeout? || r.out == Stopped then r
            else Exec(w, if r.out == Normal then b else b.next, inLoop, r.s, fuel - 1)
  {
  }

  lemma ActsNothing(w: World, inLoop: bool, s: State, fuel: nat)
    ensures Acts(w, Nil, inLoop, s, fuel) == Result(Normal, s)
  {
  }

  lemma ActsNoFuel(w: World, b: Block, inLoop: bool, s: State)
    requires !b.Nil?
    ensures Acts(w, b, inLoop, s, 0) == Timeout
  {
  }

  lemma ActsCmd(w: World, c: seq<Token>, next: Block, inLoop: bool, s: State, fuel: nat)
    requires fuel > 0
    ensures Acts(w, Cmd(c, next), inLoop, s, fuel) ==
            if IsBreak(c) then
              if inLoop then
                var r := Acts(w, BareLoops(next), false, s.(fail := false), fuel - 1);
                if r.Result? && r.out == Normal then r.(out := Broke(false)) else r
              else Acts(w, next, inLoop, s.(fail := false), fuel - 1)
            else
              var s' := RunCommand(w, c, s);
              if s'.fail && !w.ignores(s'.history) then Result(Stopped, s') else Acts(w, next, inLoop, s', fuel - 1)
  {
  }

  lemma ActsCond(w: World, b: Block, inLoop: bool, s: State, fuel: nat)
    requires b.Cond? && fuel > 0
    ensures var s' := RunCommand(w, b.cond, s);
            var branch := if s'.fail == b.inverted then Head(b.thenCmd, b.thn)
                          else if b.hasElse then Head(b.elseCmd, b.els) else Nil;
            var r := Acts(w, branch, inLoop, s'.(fail := false), fuel - 1);
            Acts(w, b, inLoop, s, fuel) ==
            if r.Result? && r.out == Normal then Acts(w, b.next, inLoop, r.s, fuel - 1) else FromBranch(r)
  {
  }

  lemma ActsLoop(w: World, b: Block, inLoop: bool, s: State, fuel: nat)
    requires b.Loop? && fuel > 0
    ensures var s' := RunCommand(w, b.cond, s);
            var r := Acts(w, Head(b.doCmd, b.body), true, s'.(fail := false), fuel - 1);
            Acts(w, b, inLoop, s, fuel) ==
            if s'.fail != b.until then
              var r := Acts(w, BareLoops(b.body), false, s'.(fail := false), fuel - 1);
              if r.Result? && r.out == Normal then Acts(w, b.next, inLoop, r.s, fuel - 1) else r
            else if r.Timeout? || r.out == Stopped then r
            else Acts(w, if r.out == Normal then b else b.next, inLoop, r.s, fuel - 1)
  {
  }

  // ----- Which programs the machine can run -----

  /** The words of each command are such that NSH reads them as the command they are meant to
      be: one keyword per command, at its front. */
  predicate WellWorded(b: Block) {
    match b
    case Nil => true
    case Cmd(c, next) => Plain(c) && WellWorded(next)
    case Cond(_, cond, thenCmd, thn, hasElse, elseCmd, els, next) =>
      && IfCondition(cond)
      && (thenCmd == [] || Plain(thenCmd)) && WellWorded(thn)
      && (elseCmd == [] || Plain(elseCmd)) && WellWorded(els)
      && WellWorded(next)
    case Loop(_, cond, doCmd, body, next) =>
      && LoopCondition(cond)
      && (doCmd == [] || Plain(doCmd)) && WellWorded(body)
      && WellWorded(next)
  }

  function Max(a: nat, b: nat): nat {
    if a < b then b else a
  }

  function IfDepth(b: Block): nat {
    match b
    case Nil => 0
    case Cmd(_, next) => IfDepth(next)
    case Cond(_, _, _, thn, _, _, els, next) => Max(1 + Max(IfDepth(thn), IfDepth(els)), IfDepth(next))
    case Loop(_, _, _, body, next) => Max(IfDepth(body), IfDepth(next))
  }

  function LoopDepth(b: Block): nat {
    match b
    case Nil => 0
    case Cmd(_, next) => LoopDepth(next)
    case Cond(_, _, _, thn, _, _, els, next) => Max(Max(LoopDepth(thn), LoopDepth(els)), LoopDepth(next))
    case Loop(_, _, _, body, next) => Max(1 + LoopDepth(body), LoopDepth(next))
  }

  /** No loop of this list of statements stands outside of all its ifs. */
  predicate NoBareLoop(b: Block) {
    match b
    case Nil => true
    case Cmd(_, next) => NoBareLoop(next)
    case Cond(_, _, _, _, _, _, _, next) => NoBareLoop(next)
    case Loop(_, _, _, _, _) => false
  }

  /** Where a block stands with respect to loops: outside of all of them, directly in the
      body of one, or in the body of one but inside an if.  A loose loop is one whose `break`s
      may stand inside its ifs. */
  datatype Place = Outside | Body(loose: bool) | InIf(loose: bool)

  predicate Loose(place: Place) {
    place != Outside && place.loose
  }

  function InsideIf(place: Place): Place {
    if place == Outside then Outside else InIf(place.loose)
  }

  predicate BreakAllowed(c: seq<Token>, place: Place) {
    IsBreak(c) ==> !place.InIf? || place.loose
  }

  /** `break` is not inside an if of its loop, and a loop inside a loop is inside an if. */
  predicate Placed(b: Block, place: Place)
    decreases b, 0
  {
    match b
    case Nil => true
    case Cmd(c, next) => PlacedAfter(c, next, place)
    case Cond(_, _, thenCmd, thn, hasElse, elseCmd, els, next) =>
      && PlacedAfter(thenCmd, thn, InsideIf(place))
      && (hasElse ==> PlacedAfter(elseCmd, els, InsideIf(place)))
      && Placed(next, place)
    case Loop(_, _, doCmd, body, next) =>
      !place.Body? && PlacedAfter(doCmd, body, Body(false)) && Placed(next, place)
  }

  /** Command c, which may be missing, and then block b.  What follows a `break` is never run, so
      it may contain any `break`. */
  predicate PlacedAfter(c: seq<Token>, b: Block, place: Place)
    decreases b, 1
  {
    BreakAllowed(c, place) && if IsBreak(c) && place != Outside then NoBareLoop(b) else Placed(b, place)
  }

  /** `break` is not inside an if of its loop. */
  predicate Sound(b: Block, place: Place)
    decreases b, 0
  {
    match b
    case Nil => true
    case Cmd(c, next) => SoundAfter(c, next, place)
    case Cond(_, _, thenCmd, thn, hasElse, elseCmd, els, next) =>
      && SoundAfter(thenCmd, thn, InsideIf(place))
      && (hasElse ==> SoundAfter(elseCmd, els, InsideIf(place)))
      && Sound(next, place)
    case Loop(_, _, doCmd, body, next) => SoundAfter(doCmd, body, Body(false)) && Sound(next, place)
  }

  /** Command c, which may be missing, and then block b, of which only the bare loops are run if c
      is a `break`. */
  predicate SoundAfter(c: seq<Token>, b: Block, place: Place)
    decreases b, 1
  {
    BreakAllowed(c, place) && if IsBreak(c) && place != Outside then SoundLoops(b) else Sound(b, place)
  }

  predicate SoundLoops(b: Block)
    decreases b, 0
  {
    match b
    case Nil => true
    case Cmd(_, next) => SoundLoops(next)
    case Cond(_, _, _, _, _, _, _, next) => SoundLoops(next)
    case Loop(_, _, doCmd, body, next) => SoundAfter(doCmd, body, Body(false)) && SoundLoops(next)
  }

  lemma {:induction false} SoundHasSoundLoops(c: seq<Token>, b: Block, place: Place)
    requires SoundAfter(c, b, place)
    ensures SoundLoops(b)
    decreases b
  {
    if !(IsBreak(c) && place != Outside) && !b.Nil? {
      SoundHasSoundLoops(if b.Cmd? then b.words else [], b.next, place);
    }
  }

  // ----- Programs without loops directly inside loops -----

  lemma {:induction false} BodyHasNoBareLoop(b: Block)
    requires Placed(b, Body(false)) || Placed(b, Body(true))
    ensures NoBareLoop(b)
  {
    if !b.Nil? && !(b.Cmd? && IsBreak(b.words)) {
      BodyHasNoBareLoop(b.next);
    }
  }

  lemma {:induction false} NoBareLoops(b: Block)
    requires NoBareLoop(b)
    ensures BareLoops(b) == Nil && SoundLoops(b)
  {
    if !b.Nil? {
      NoBareLoops(b.next);
    }
  }

  lemma {:induction false} PlacedIsSound(c: seq<Token>, b: Block, place: Place)
    requires PlacedAfter(c, b, place)
    ensures SoundAfter(c, b, place)
    decreases b
  {
    if IsBreak(c) && place != Outside {
      NoBareLoops(b);
    } else {
      match b
      case Nil =>
      case Cmd(c', next) => PlacedIsSound(c', next, place);
      case Cond(_, _, thenCmd, thn, hasElse, elseCmd, els, next) =>
        PlacedIsSound(thenCmd, thn, InsideIf(place));
        if hasElse {
          PlacedIsSound(elseCmd, els, InsideIf(place));
        }
        PlacedIsSound([], next, place);
      case Loop(_, _, doCmd, body, next) =>
        PlacedIsSound(doCmd, body, Body(false));
        PlacedIsSound([], next, place);
    }
  }

  /** Where no loop stands directly inside a loop, NSH does what the program means. */
  lemma {:induction false} PlacedActsAsMeant(w: World, b: Block, place: Place, s: State, fuel: nat)
    requires Placed(b, place)
    ensures Acts(w, b, place != Outside, s, fuel) == Exec(w, b, place != Outside, s, fuel)
    decreases fuel
  {
    if !b.Nil? && fuel > 0 {
      hide Acts, Exec;
      match b
      case Cmd(c, next) =>
        ExecCmd(w, c, next, place != Outside, s, fuel);
        ActsCmd(w, c, next, place != Outside, s, fuel);
        if IsBreak(c) && place != Outside {
          NoBareLoops(next);
          ActsNothing(w, false, s.(fail := false), fuel - 1);
        } else {
          PlacedActsAsMeant(w, next, place, if IsBreak(c) then s.(fail := false) else RunCommand(w, c, s), fuel - 1);
        }
      case Cond(_, _, _, _, _, _, _, _) => CondActsAsMeant(w, b, place, s, fuel);
      case Loop(_, _, _, _, _) => LoopActsAsMeant(w, b, place, s, fuel);
    }
  }

  lemma {:induction false} CondActsAsMeant(w: World, b: Block, place: Place, s: State, fuel: nat)
    requires Placed(b, place) && b.Cond? && fuel > 0
    ensures Acts(w, b, place != Outside, s, fuel) == Exec(w, b, place != Outside, s, fuel)
    decreases fuel, 0
  {
    hide Acts, Exec;
    ExecCond(w, b, place != Outside, s, fuel);
    ActsCond(w, b, place != Outside, s, fuel);
    var s' := RunCommand(w, b.cond, s);
    var branch := if s'.fail == b.inverted then Head(b.thenCmd, b.thn)
                  else if b.hasElse then Head(b.elseCmd, b.els) else Nil;
    assert Placed(branch, InsideIf(place));
    PlacedActsAsMeant(w, branch, InsideIf(place), s'.(fail := false), fuel - 1);
    var r := Exec(w, branch, place != Outside, s'.(fail := false), fuel - 1);
    if r.Result? {
      PlacedActsAsMeant(w, b.next, place, r.s, fuel - 1);
    }
  }

  lemma {:induction false} LoopActsAsMeant(w: World, b: Block, place: Place, s: State, fuel: nat)
    requires Placed(b, place) && b.Loop? && fuel > 0
    ensures Acts(w, b, place != Outside, s, fuel) == Exec(w, b, place != Outside, s, fuel)
    decreases fuel, 0
  {
    hide Acts, Exec;
    ExecLoop(w, b, place != Outside, s, fuel);
    ActsLoop(w, b, place != Outside, s, fuel);
    var s' := RunCommand(w, b.cond, s);
    if s'.fail != b.until {
      BodyIsClear(b.doCmd, b.body);
      ActsNothing(w, false, s'.(fail := false), fuel - 1);
      PlacedActsAsMeant(w, b.next, place, s'.(fail := false), fuel - 1);
    } else {
      HeadPlaced(b.doCmd, b.body, Body(false));
      PlacedActsAsMeant(w, Head(b.doCmd, b.body), Body(false), s'.(fail := false), fuel - 1);
      var r := Exec(w, Head(b.doCmd, b.body), true, s'.(fail := false), fuel - 1);
      if r.Result? {
        PlacedActsAsMeant(w, if r.out == Normal then b else b.next, place, r.s, fuel - 1);
      }
    }
  }

  lemma HeadPlaced(c: seq<Token>, b: Block, place: Place)
    requires PlacedAfter(c, b, place)
    ensures Placed(Head(c, b), place)
  {
  }

  lemma BodyIsClear(c: seq<Token>, b: Block)
    requires PlacedAfter(c, b, Body(false)) || PlacedAfter(c, b, Body(true))
    ensures NoBareLoop(b) && BareLoops(b) == Nil
  {
    if !IsBreak(c) {
      BodyHasNoBareLoop(b);
    }
    NoBareLoops(b);
  }

  /** The command that an item may run: all of it, or what its keyword carries. */
  function Carried(words: seq<Token>): seq<Token> {
    if Plain(words) then words else if |words| > 1 && Carrier(words[0]) then words[1..] else []
  }

  /** A failure that does not stop the script drops no command: no command that is followed by
      others on its line fails while `set +e` is in force. */
  ghost predicate KeepsLines(w: World, prog: seq<Item>) {
    forall item: Item, h: History, fail: bool | item in prog && !item.last && Carried(item.words) != [] ::
      w.fails(After(h, Carried(item.words), fail)) ==> !w.ignores(After(h, Carried(item.words), fail))
  }

  lemma LineKept(w: World, prog: seq<Item>, at: int, c: seq<Token>, h: History, fail: bool)
    requires KeepsLines(w, prog) && 0 <= at < |prog| && c != [] && c == Carried(prog[at].words)
    ensures prog[at].last || (w.fails(After(h, c, fail)) ==> !w.ignores(After(h, c, fail)))
  {
    assert prog[at] in prog;
  }

  /** At a loose place `set +e` must never be in force. */
  ghost predicate Steady(w: World, prog: seq<Item>, place: Place) {
    KeepsLines(w, prog) && (Loose(place) ==> forall h: History :: !w.ignores(h))
  }

  // ----- Finding a block in a script -----

  /** The commands of block `b` are those of the script from `at` on. */
  predicate Holds(prog: seq<Item>, at: int, text: seq<seq<Token>>) {
    0 <= at && at + |text| <= |prog| && forall i | 0 <= i < |text| :: prog[at + i].words == text[i]
  }

  predicate ItemAt(prog: seq<Item>, at: int, words: seq<Token>) {
    0 <= at < |prog| && prog[at].words == words
  }

  lemma HoldsOne(prog: seq<Item>, at: int, words: seq<Token>)
    requires Holds(prog, at, [words])
    ensures ItemAt(prog, at, words)
  {
    assert prog[at + 0].words == [words][0];
  }

  lemma HoldsSplit(prog: seq<Item>, at: int, a: seq<seq<Token>>, b: seq<seq<Token>>)
    requires Holds(prog, at, a + b)
    ensures Holds(prog, at, a) && Holds(prog, at + |a|, b)
  {
    forall i | 0 <= i < |a|
      ensures prog[at + i].words == a[i]
    {
      assert (a + b)[i] == a[i];
    }
    forall i | 0 <= i < |b|
      ensures prog[at + |a| + i].words == b[i]
    {
      assert (a + b)[|a| + i] == b[i];
    }
  }

  lemma CondLayout(prog: seq<Item>, at: int, b: Block)
    requires b.Cond? && Holds(prog, at, Flatten(b))
    ensures var t := at + 2 + |Flatten(b.thn)|;
            var e := if b.hasElse then t + 1 + |Flatten(b.els)| else t;
            && ItemAt(prog, at, IfWords(b.inverted, b.cond))
            && ItemAt(prog, at + 1, [Then] + b.thenCmd)
            && Holds(prog, at + 2, Flatten(b.thn))
            && (b.hasElse ==> ItemAt(prog, t, [Else] + b.elseCmd) && Holds(prog, t + 1, Flatten(b.els)))
            && ItemAt(prog, e, [Fi])
            && Holds(prog, e + 1, Flatten(b.next))
            && at + |Flatten(b)| == e + 1 + |Flatten(b.next)|
  {
    hide Holds;
    var p0 := [IfWords(b.inverted, b.cond)];
    var p1 := [[Then] + b.thenCmd];
    var p2 := Flatten(b.thn);
    var p3 := ElsePart(b.hasElse, b.elseCmd, Flatten(b.els));
    var p4 := [[Fi]];
    var p5 := Flatten(b.next);
    HoldsSplit(prog, at, p0 + p1 + p2 + p3 + p4, p5);
    HoldsSplit(prog, at, p0 + p1 + p2 + p3, p4);
    HoldsSplit(prog, at, p0 + p1 + p2, p3);
    HoldsSplit(prog, at, p0 + p1, p2);
    HoldsSplit(prog, at, p0, p1);
    HoldsOne(prog, at, p0[0]);
    HoldsOne(prog, at + 1, p1[0]);
    HoldsOne(prog, at + 2 + |p2| + |p3|, p4[0]);
    if b.hasElse {
      HoldsSplit(prog, at + 2 + |p2|, [[Else] + b.elseCmd], Flatten(b.els));
      HoldsOne(prog, at + 2 + |p2|, [Else] + b.elseCmd);
    }
  }

  lemma LoopLayout(prog: seq<Item>, at: int, b: Block)
    requires b.Loop? && Holds(prog, at, Flatten(b))
    ensures var d := at + 2 + |Flatten(b.body)|;
            && ItemAt(prog, at, LoopWords(b.until, b.cond))
            && ItemAt(prog, at + 1, [Do] + b.doCmd)
            && Holds(prog, at + 2, Flatten(b.body))
            && ItemAt(prog, d, [Done])
            && Holds(prog, d + 1, Flatten(b.next))
            && at + |Flatten(b)| == d + 1 + |Flatten(b.next)|
  {
    hide Holds;
    var p0 := [LoopWords(b.until, b.cond)];
    var p1 := [[Do] + b.doCmd];
    var p2 := Flatten(b.body);
    HoldsSplit(prog, at, p0 + p1 + p2 + [[Done]], Flatten(b.next));
    HoldsSplit(prog, at, p0 + p1 + p2, [[Done]]);
    HoldsSplit(prog, at, p0 + p1, p2);
    HoldsSplit(prog, at, p0, p1);
    HoldsOne(prog, at, p0[0]);
    HoldsOne(prog, at + 1, p1[0]);
    HoldsOne(prog, at + 2 + |p2|, [Done]);
  }

  lemma CmdLayout(prog: seq<Item>, at: int, b: Block)
    requires b.Cmd? && Holds(prog, at, Flatten(b))
    ensures ItemAt(prog, at, b.words) && Holds(prog, at + 1, Flatten(b.next))
    ensures |Flatten(b)| == 1 + |Flatten(b.next)|
  {
    HoldsSplit(prog, at, [b.words], Flatten(b.next));
    HoldsOne(prog, at, b.words);
  }

  // ----- Passing over a block while processing is disabled -----

  /** The machine is running, at rest between statements, with room for block b, which is the
      next thing in the script. */
  predicate Before(prog: seq<Item>, m: Machine, depth: nat, b: Block) {
    && Running(m, depth)
    && Ready(ViewOf(m))
    && WellWorded(b)
    && Holds(prog, m.pc, Flatten(b))
    && Height(ViewOf(m).ie) + IfDepth(b) <= depth
    && Height(ViewOf(m).lp) + LoopDepth(b) <= depth
  }

  lemma SkipCarrier(w: World, prog: seq<Item>, m: Machine, depth: nat, k: Token, c: seq<Token>)
    requires Carrier(k) && AtItem(prog, m, depth, [k] + c) && (c == [] || Plain(c))
    requires Accepts(ViewOf(m), k) && !On(Marked(ViewOf(m), k))
    ensures Running(Step(w, prog, m), depth)
    ensures ViewOf(Step(w, prog, m)) == Marked(ViewOf(m), k).(pc := m.pc + 1)
  {
    hide Step, MarkParser;
    if c == [] {
      assert [k] + c == [k];
      StepCarrier(w, prog, m, depth, k);
    } else {
      StepGlued(w, prog, m, depth, k, c);
      MarkedView(m, k);
      StepSkipsPlain(w, prog[m.pc := prog[m.pc].(words := c)], MarkMachine(m, k), depth, c);
    }
  }

  /** The skip lemma.  While processing is disabled, a block is passed over without running a
      command, without changing the exit status, and with both stacks as they were; if it is
      only a loop that disables processing, the block must have no bare loop. */
  lemma {:induction false} Skip(w: World, prog: seq<Item>, m: Machine, depth: nat, b: Block) returns (n: nat)
    requires Before(prog, m, depth, b)
    requires !On(ViewOf(m))
    requires LevelEnabled(ViewOf(m).ie.level) ==> NoBareLoop(b)
    ensures Running(Run(w, prog, m, n), depth)
    ensures ViewOf(Run(w, prog, m, n)) == ViewOf(m).(pc := m.pc + |Flatten(b)|)
    decreases b
  {
    hide Step, ViewOf, Shape, Holds, WellWorded, IfDepth, LoopDepth, Ready;
    match b
    case Nil =>
      n := 0;
    case Cmd(_, next) =>
      SkipCmd(w, prog, m, depth, b);
      var n' := Skip(w, prog, Step(w, prog, m), depth, next);
      n := n' + 1;
    case Cond(_, _, _, _, _, _, _, next) =>
      var a := SkipCond(w, prog, m, depth, b);
      var n' := Skip(w, prog, Run(w, prog, m, a), depth, next);
      RunSplits(w, prog, m, a, n');
      CondLayout(prog, m.pc, b);
      n := a + n';
    case Loop(_, _, _, _, next) =>
      var a := SkipLoop(w, prog, m, depth, b);
      var n' := Skip(w, prog, Run(w, prog, m, a), depth, next);
      RunSplits(w, prog, m, a, n');
      LoopLayout(prog, m.pc, b);
      n := a + n';
  }

  lemma SkipCmd(w: World, prog: seq<Item>, m: Machine, depth: nat, b: Block)
    requires b.Cmd? && Before(prog, m, depth, b) && !On(ViewOf(m))
    ensures Before(prog, Step(w, prog, m), depth, b.next) && |Flatten(b)| == 1 + |Flatten(b.next)|
    ensures ViewOf(Step(w, prog, m)) == ViewOf(m).(pc := m.pc + 1)
  {
    hide Step, ViewOf, Shape, Holds;
    CmdLayout(prog, m.pc, b);
    StepSkipsPlain(w, prog, m, depth, b.words);
  }

  /** `if` and `then`, while processing is disabled. */
  lemma OpenSkippedCond(w: World, prog: seq<Item>, m: Machine, depth: nat, b: Block)
    requires b.Cond? && Before(prog, m, depth, b) && !On(ViewOf(m))
    ensures var m' := Run(w, prog, m, 2);
            && Before(prog, m', depth, b.thn)
            && ViewOf(m') ==
               ViewOf(m).(pc := m.pc + 2,
                          ie := Over(ItefLevel(ItefThen, true, false, b.inverted), ViewOf(m).ie))
  {
    hide Step, Run, ViewOf, Shape, Holds, Flatten;
    CondLayout(prog, m.pc, b);
    StepIf(w, prog, m, depth, b.inverted, b.cond);
    SkipCarrier(w, prog, Step(w, prog, m), depth, Then, b.thenCmd);
    RunOne(w, prog, m);
    RunThenStep(w, prog, m, 1);
  }

  /** The machine stands at the `fi` of a conditional that started in view v. */
  predicate AtFi(m: Machine, depth: nat, v: View, fi: int, s: State) {
    && Running(m, depth)
    && var u := ViewOf(m);
       && u.ie.Over? && (u.ie.level.state == ItefThen || u.ie.level.state == ItefElse)
       && v.(pc := fi, history := s.history, fail := s.fail) == u.(ie := u.ie.below)
  }

  function StateOf(v: View): State {
    State(v.history, v.fail)
  }

  function ThenEnd(v: View, b: Block): int
    requires b.Cond?
  {
    v.pc + 2 + |Flatten(b.thn)|
  }

  function FiAt(v: View, b: Block): int
    requires b.Cond?
  {
    if b.hasElse then ThenEnd(v, b) + 1 + |Flatten(b.els)| else ThenEnd(v, b)
  }

  /** Machine m stands at the end of the then part of conditional b, which started in view v, and
      its else part is not to be run. */
  predicate AtElse(prog: seq<Item>, m: Machine, depth: nat, v: View, b: Block, disabled: bool) {
    && b.Cond? && Running(m, depth) && Ready(v) && WellWorded(b) && Holds(prog, v.pc, Flatten(b))
    && Height(v.ie) + IfDepth(b) <= depth && Height(v.lp) + LoopDepth(b) <= depth
    && ViewOf(m) == v.(pc := ThenEnd(v, b), ie := Over(ItefLevel(ItefThen, disabled, false, b.inverted), v.ie),
                       history := m.history, fail := m.np.fail)
  }

  /** Skip the else part of a conditional, if there is one. */
  lemma {:induction false} SkipElse(w: World, prog: seq<Item>, m: Machine, depth: nat, v: View, b: Block,
                                    disabled: bool)
    returns (n: nat)
    requires AtElse(prog, m, depth, v, b, disabled)
    ensures AtFi(Run(w, prog, m, n), depth, v, FiAt(v, b), StateOf(ViewOf(m)))
    decreases b, 0
  {
    hide Step, Run, Shape, ViewOf, Holds, Flatten;
    RunZero(w, prog, m);
    n := 0;
    if b.hasElse {
      OpenSkippedElse(w, prog, m, depth, v, b, disabled);
      n := Skip(w, prog, Run(w, prog, m, 1), depth, b.els);
      RunSplits(w, prog, m, 1, n);
      n := 1 + n;
    }
  }

  lemma OpenSkippedElse(w: World, prog: seq<Item>, m: Machine, depth: nat, v: View, b: Block, disabled: bool)
    requires AtElse(prog, m, depth, v, b, disabled) && b.hasElse
    ensures var m' := Run(w, prog, m, 1);
            && Before(prog, m', depth, b.els) && !LevelEnabled(ViewOf(m').ie.level)
            && ViewOf(m') ==
               ViewOf(m).(pc := m.pc + 1, ie := Over(ItefLevel(ItefElse, disabled, false, b.inverted), v.ie))
  {
    hide Step, Run, Shape, ViewOf, Holds, Flatten;
    CondLayout(prog, v.pc, b);
    SkipCarrier(w, prog, m, depth, Else, b.elseCmd);
    RunOne(w, prog, m);
  }

  /** The else part, if there is one, and `fi`, while processing is disabled. */
  lemma {:induction false} SkipToFi(w: World, prog: seq<Item>, m: Machine, depth: nat, v: View,
                                    b: Block) returns (n: nat)
    requires AtElse(prog, m, depth, v, b, true) && StateOf(ViewOf(m)) == StateOf(v)
    ensures Running(Run(w, prog, m, n), depth)
    ensures ViewOf(Run(w, prog, m, n)) == v.(pc := v.pc + |Flatten(b)| - |Flatten(b.next)|)
    decreases b, 1
  {
    hide Step, Run, ViewOf, Shape, Holds, Flatten;
    CondLayout(prog, v.pc, b);
    n := SkipElse(w, prog, m, depth, v, b, true);
    StepFi(w, prog, Run(w, prog, m, n), depth);
    RunThenStep(w, prog, m, n);
    n := n + 1;
  }

  /** The conditional itself, up to but not including the statements after it. */
  lemma {:induction false} SkipCond(w: World, prog: seq<Item>, m: Machine, depth: nat, b: Block) returns (n: nat)
    requires b.Cond? && Before(prog, m, depth, b) && !On(ViewOf(m))
    ensures var m' := Run(w, prog, m, n);
            && Before(prog, m', depth, b.next)
            && ViewOf(m') == ViewOf(m).(pc := m.pc + |Flatten(b)| - |Flatten(b.next)|)
    decreases b, 2
  {
    hide Step, Run, ViewOf, Shape, Holds, Flatten;
    CondLayout(prog, m.pc, b);
    OpenSkippedCond(w, prog, m, depth, b);
    var a := Skip(w, prog, Run(w, prog, m, 2), depth, b.thn);
    RunSplits(w, prog, m, 2, a);
    var c := SkipToFi(w, prog, Run(w, prog, m, 2 + a), depth, ViewOf(m), b);
    RunSplits(w, prog, m, 2 + a, c);
    n := 2 + a + c;
  }

  /** A loop head and `do`, while the if stack disables processing. */
  lemma OpenSkippedLoop(w: World, prog: seq<Item>, m: Machine, depth: nat, b: Block)
    requires b.Loop? && Before(prog, m, depth, b) && !LevelEnabled(ViewOf(m).ie.level)
    ensures var m' := Run(w, prog, m, 2);
            && Before(prog, m', depth, b.body)
            && ViewOf(m') ==
               ViewOf(m).(pc := m.pc + 2,
                          lp := Over(LoopLevel(LoopDo, false, Height(ViewOf(m).ie) - 1, m.pc), ViewOf(m).lp))
  {
    hide Step, Run, ViewOf, Shape, Holds, Flatten, Plain;
    LoopLayout(prog, m.pc, b);
    StepLoop(w, prog, m, depth, b.until, b.cond);
    SkipCarrier(w, prog, Step(w, prog, m), depth, Do, b.doCmd);
    RunOne(w, prog, m);
    RunThenStep(w, prog, m, 1);
  }

  lemma {:induction false} SkipLoop(w: World, prog: seq<Item>, m: Machine, depth: nat, b: Block) returns (n: nat)
    requires b.Loop? && Before(prog, m, depth, b) && !LevelEnabled(ViewOf(m).ie.level)
    ensures var m' := Run(w, prog, m, n);
            && Before(prog, m', depth, b.next)
            && ViewOf(m') == ViewOf(m).(pc := m.pc + |Flatten(b)| - |Flatten(b.next)|)
    decreases b, 0
  {
    hide Step, Run, ViewOf, Shape, Holds, Flatten;
    LoopLayout(prog, m.pc, b);
    OpenSkippedLoop(w, prog, m, depth, b);
    var a := Skip(w, prog, Run(w, prog, m, 2), depth, b.body);
    RunSplits(w, prog, m, 2, a);
    StepDone(w, prog, Run(w, prog, m, 2 + a), depth);
    RunThenStep(w, prog, m, 2 + a);
    n := 2 + a + 1;
  }

  // ----- Running a block -----

  /** Processing is enabled and the loop on top of the stack is the one `place` speaks of; a loose
      loop was opened outside of all ifs. */
  predicate Fits(v: View, place: Place) {
    && On(v)
    && match place
       case Outside => v.lp.level.state == LoopNormal
       case Body(loose) =>
         && v.lp.level.state == LoopDo && v.lp.level.iendx == Height(v.ie) - 1
         && (loose ==> v.ie.level.state == ItefNormal)
       case InIf(loose) =>
         && v.lp.level.state == LoopDo
         && (loose ==>
               && v.lp.level.iendx < Height(v.ie) && LevelEnabled(CutTo(v.ie, v.lp.level.iendx).level)
               && CutTo(v.ie, v.lp.level.iendx).level.state == ItefNormal)
  }

  /** Machine m is where a block that started in view v and ends at `end` leaves it. */
  predicate Ends(m: Machine, depth: nat, v: View, end: int, r: Result)
    requires r.Result?
  {
    match r.out
    case Normal => Running(m, depth) && ViewOf(m) == v.(pc := end, history := r.s.history, fail := r.s.fail)
    case Broke(inIf) =>
      if inIf then m.stopped && m.history == r.s.history && m.np.fail
      else Running(m, depth) && ViewOf(m) == Broken(v).(pc := end, history := r.s.history, fail := r.s.fail)
    case Stopped => m.stopped && m.history == r.s.history && m.np.fail == r.s.fail
  }

  /** One plain command, run at place `place`: what it leaves, as the meaning of a command says. */
  predicate Stepped(w: World, m: Machine, depth: nat, v: View, c: seq<Token>, place: Place)
    requires c != []
  {
    if IsBreak(c) then
      Running(m, depth) && m.ok && ViewOf(m) == Broken(v).(pc := v.pc + 1, fail := false)
    else
      var s := RunCommand(w, c, State(v.history, v.fail));
      if s.fail && !w.ignores(s.history) then
        m.stopped && m.history == s.history && m.np.fail
      else
        && Running(m, depth) && m.ok == !s.fail
        && ViewOf(m) == v.(pc := v.pc + 1, history := s.history, fail := s.fail)
  }

  lemma CommandStep(w: World, prog: seq<Item>, m: Machine, depth: nat, c: seq<Token>, place: Place)
    requires AtItem(prog, m, depth, c) && Plain(c) && BreakAllowed(c, place)
    requires Ready(ViewOf(m)) && Fits(ViewOf(m), place)
    requires prog[m.pc].last || (w.fails(After(m.history, c, m.np.fail)) ==> !w.ignores(After(m.history, c, m.np.fail)))
    ensures Stepped(w, Step(w, prog, m), depth, ViewOf(m), c, place)
  {
    hide Step, Shape;
    if IsBreak(c) {
      StepBreaks(w, prog, m, depth);
    } else {
      StepRunsPlain(w, prog, m, depth, c);
    }
  }

  /** A `break` inside an if of its loop happens only where it is allowed. */
  predicate BreakFits(r: Result, place: Place) {
    r.Result? && r.out.Broke? ==> place != Outside && (r.out.inIf || place.InIf? ==> place.loose)
  }

  /** After n steps the machine is m, and result r says the same; if r is that of running out of
      fuel, then the machine is still running, at least `least` steps later. */
  predicate Agrees(prog: seq<Item>, m: Machine, n: nat, least: int, depth: nat, v: View, end: int, r: Result,
                   place: Place)
  {
    && (r.Timeout? ==> n >= least && !Halted(prog, m))
    && (r.Result? ==> Ends(m, depth, v, end, r) && BreakFits(r, place))
  }

  /** The last statement of a block is a single command. */
  predicate EndsInCommand(b: Block) {
    match b
    case Nil => false
    case Cmd(_, next) => next.Nil? || EndsInCommand(next)
    case Cond(_, _, _, _, _, _, _, next) => EndsInCommand(next)
    case Loop(_, _, _, _, next) => EndsInCommand(next)
  }

  /** The last command that machine m has run is the last of block b: it reports the status of a
      single command, and success after `fi` and `done`. */
  predicate Reports(m: Machine, b: Block, r: Result) {
    r.Result? && r.out == Normal ==> m.ok == (EndsInCommand(b) ==> !r.s.fail)
  }

  /** From a machine m that has just run command c, run the rest of the block. */
  lemma {:induction false} AfterCommand(w: World, prog: seq<Item>, m: Machine, depth: nat, v: View,
                                        c: seq<Token>, next: Block, place: Place, fuel: nat)
    returns (n: nat)
    requires Steady(w, prog, place) && Plain(c) && SoundAfter(c, next, place)
    requires Shape(m.np) && Stepped(w, m, depth, v, c, place)
    requires !m.stopped ==> Before(prog, m, depth, next)
    requires Fits(v, place) && fuel > 0
    ensures Agrees(prog, Run(w, prog, m, n), n, fuel - 1, depth, v, v.pc + 1 + |Flatten(next)|,
                   Acts(w, Cmd(c, next), place != Outside, StateOf(v), fuel), place)
    ensures Reports(Run(w, prog, m, n), Cmd(c, next), Acts(w, Cmd(c, next), place != Outside, StateOf(v), fuel))
    decreases fuel, 0
  {
    hide Step, Shape, ViewOf, Holds, Flatten, Acts, KeepsLines;
    ActsCmd(w, c, next, place != Outside, StateOf(v), fuel);
    if m.stopped {
      n := 0;
    } else if IsBreak(c) && place != Outside {
      BrokenView(v, place);
      n := PassOver(w, prog, m, depth, next, fuel - 1);
    } else {
      n := Simulate(w, prog, m, depth, next, place, fuel - 1);
    }
  }

  /** A keyword that carries command c leaves the machine as c does after the keyword. */
  lemma CarriedStep(w: World, prog: seq<Item>, m: Machine, depth: nat, k: Token, c: seq<Token>, place: Place)
    requires Carrier(k) && AtItem(prog, m, depth, [k] + c) && Plain(c) && BreakAllowed(c, place)
    requires Accepts(ViewOf(m), k) && Fits(Marked(ViewOf(m), k), place) && Steady(w, prog, place)
    ensures Stepped(w, Step(w, prog, m), depth, Marked(ViewOf(m), k), c, place)
  {
    hide Step, Shape, ViewOf, MarkParser, Stepped;
    StepGlued(w, prog, m, depth, k, c);
    MarkedView(m, k);
    assert [k] + c != [] && ([k] + c)[1..] == c;
    LineKept(w, prog, m.pc, c, m.history, m.np.fail);
    CommandStep(w, prog[m.pc := prog[m.pc].(words := c)], MarkMachine(m, k), depth, c, place);
  }

  /** The machine stands at keyword k, which opens block b and may carry its first command c. */
  predicate Opens(prog: seq<Item>, m: Machine, depth: nat, k: Token, c: seq<Token>, b: Block, place: Place) {
    && Carrier(k) && AtItem(prog, m, depth, [k] + c)
    && (c == [] || Plain(c)) && SoundAfter(c, b, place)
    && Accepts(ViewOf(m), k) && Fits(Marked(ViewOf(m), k), place)
    && WellWorded(b) && Holds(prog, m.pc + 1, Flatten(b))
    && Height(ViewOf(m).ie) + IfDepth(b) <= depth && Height(ViewOf(m).lp) + LoopDepth(b) <= depth
  }

  lemma CarriedReady(w: World, prog: seq<Item>, m: Machine, depth: nat, k: Token, c: seq<Token>, b: Block, place: Place)
    requires Opens(prog, m, depth, k, c, b, place) && c != []
    requires Stepped(w, Step(w, prog, m), depth, Marked(ViewOf(m), k), c, place)
    ensures !Step(w, prog, m).stopped ==> Before(prog, Step(w, prog, m), depth, b)
  {
    hide Step, Shape, ViewOf, Holds, Flatten, WellWorded, IfDepth, LoopDepth, Sound;
  }

  lemma {:induction false} SimulateCarried(w: World, prog: seq<Item>, m: Machine, depth: nat,
                                           k: Token, c: seq<Token>, b: Block, place: Place, fuel: nat)
    returns (n: nat)
    requires Opens(prog, m, depth, k, c, b, place) && Steady(w, prog, place) && c != [] && fuel > 0
    ensures Agrees(prog, Run(w, prog, m, n), n, fuel, depth, Marked(ViewOf(m), k), m.pc + 1 + |Flatten(b)|,
                   Acts(w, Cmd(c, b), place != Outside, StateOf(ViewOf(m)), fuel), place)
    decreases fuel, 1
  {
    hide Step, Run, Shape, ViewOf, Holds, Flatten, Acts, WellWorded, IfDepth, LoopDepth, Sound, Ends;
    CarriedStep(w, prog, m, depth, k, c, place);
    CarriedReady(w, prog, m, depth, k, c, b, place);
    RunOne(w, prog, m);
    n := AfterCommand(w, prog, Run(w, prog, m, 1), depth, Marked(ViewOf(m), k), c, b, place, fuel);
    RunSplits(w, prog, m, 1, n);
    n := 1 + n;
  }

  /** A branch or a loop body whose opening keyword stands alone. */
  lemma {:induction false} SimulateAlone(w: World, prog: seq<Item>, m: Machine, depth: nat,
                                         k: Token, b: Block, place: Place, fuel: nat)
    returns (n: nat)
    requires Opens(prog, m, depth, k, [], b, place) && Steady(w, prog, place)
    ensures Agrees(prog, Run(w, prog, m, n), n, fuel, depth, Marked(ViewOf(m), k), m.pc + 1 + |Flatten(b)|,
                   Acts(w, b, place != Outside, StateOf(ViewOf(m)), fuel), place)
    decreases fuel, 3
  {
    hide Step, Run, Shape, ViewOf, Holds, Flatten, Acts, Ends, Halted, Steady, Fits;
    assert [k] + [] == [k];
    StepCarrier(w, prog, m, depth, k);
    RunOne(w, prog, m);
    OpenedBefore(prog, m, Run(w, prog, m, 1), depth, k, b, place);
    n := Simulate(w, prog, Run(w, prog, m, 1), depth, b, place, fuel);
    RunSplits(w, prog, m, 1, n);
    n := 1 + n;
    AgreesOnStacks(prog, Run(w, prog, m, n), n, fuel, depth, ViewOf(Run(w, prog, m, 1)), Marked(ViewOf(m), k),
                   m.pc + 1 + |Flatten(b)|, Acts(w, b, place != Outside, StateOf(ViewOf(m)), fuel), place);
  }

  lemma OpenedBefore(prog: seq<Item>, m: Machine, m': Machine, depth: nat, k: Token, b: Block, place: Place)
    requires Opens(prog, m, depth, k, [], b, place) && Running(m', depth)
    requires ViewOf(m') == Marked(ViewOf(m), k).(pc := m.pc + 1)
    ensures Before(prog, m', depth, b) && Sound(b, place) && Fits(ViewOf(m'), place)
  {
    hide Shape, ViewOf, Holds, Flatten, WellWorded, IfDepth, LoopDepth, Sound;
  }

  /** A branch or a loop body that opens with keyword k. */
  lemma {:induction false} SimulateHead(w: World, prog: seq<Item>, m: Machine, depth: nat,
                                        k: Token, c: seq<Token>, b: Block, place: Place, fuel: nat)
    returns (n: nat)
    requires Opens(prog, m, depth, k, c, b, place) && Steady(w, prog, place)
    ensures Agrees(prog, Run(w, prog, m, n), n, fuel, depth, Marked(ViewOf(m), k), m.pc + 1 + |Flatten(b)|,
                   Acts(w, Head(c, b), place != Outside, StateOf(ViewOf(m)), fuel), place)
    decreases fuel, 4
  {
    hide Step, Run, Shape, ViewOf, Holds, Flatten, WellWorded, IfDepth, LoopDepth, Sound, Acts, KeepsLines;
    if c == [] {
      n := SimulateAlone(w, prog, m, depth, k, b, place, fuel);
    } else if fuel == 0 {
      n := 0;
      RunZero(w, prog, m);
      ActsNoFuel(w, Head(c, b), place != Outside, StateOf(ViewOf(m)));
    } else {
      n := SimulateCarried(w, prog, m, depth, k, c, b, place, fuel);
    }
  }

  /** After n steps the machine is m, and is done with the branches of a conditional, whose
      result is r. */
  predicate BranchAgrees(prog: seq<Item>, m: Machine, n: nat, least: int, depth: nat, v: View, fi: int, r: Result,
                         place: Place)
  {
    && BreakFits(FromBranch(r), place)
    && (r.Timeout? ==> n >= least && !Halted(prog, m))
    && (r.Result? ==>
          && (r.out.Broke? ==> m.stopped && m.history == r.s.history && m.np.fail)
          && (r.out == Normal ==> AtFi(m, depth, v, fi, r.s))
          && (r.out == Stopped ==> m.stopped && m.history == r.s.history && m.np.fail == r.s.fail))
  }

  /** Machine m has run the condition of conditional b, which started in view v, and stands at
      its `then`. */
  predicate AtThen(prog: seq<Item>, m: Machine, depth: nat, v: View, b: Block, place: Place, ifcond: bool) {
    && b.Cond? && Running(m, depth) && Ready(v) && Fits(v, place)
    && WellWorded(b) && Sound(b, place) && Holds(prog, v.pc, Flatten(b))
    && Height(v.ie) + IfDepth(b) <= depth && Height(v.lp) + LoopDepth(b) <= depth
    && ViewOf(m) == v.(pc := v.pc + 1, ie := Over(ItefLevel(ItefIf, false, ifcond, b.inverted), v.ie),
                       history := m.history, fail := m.np.fail)
  }

  /** After a `break` in a branch of an if of its loop, the `else` or `fi` that ends the branch
      stops the script. */
  lemma LoseBranch(w: World, prog: seq<Item>, m: Machine, n: nat, depth: nat, v: View, end: int, r: Result,
                   place: Place, words: seq<Token>)
    requires Shape(m.np) && ItemAt(prog, end, words) && words != [] && (words[0] == Else || words == [Fi])
    requires r.Result? && r.out == Broke(false) && Ends(Run(w, prog, m, n), depth, v, end, r)
    requires BreakFits(r, InsideIf(place)) && Fits(v, InsideIf(place)) && Steady(w, prog, place)
    ensures var m' := Run(w, prog, m, n + 1);
            m'.stopped && m'.history == r.s.history && m'.np.fail
  {
    hide Step, Run, Shape, ViewOf, KeepsLines;
    StepLost(w, prog, Run(w, prog, m, n), depth, words);
    RunThenStep(w, prog, m, n);
  }

  lemma OpensThen(prog: seq<Item>, m: Machine, depth: nat, v: View, b: Block, place: Place)
    requires AtThen(prog, m, depth, v, b, place, false)
    ensures Opens(prog, m, depth, Then, b.thenCmd, b.thn, InsideIf(place))
    ensures Fits(Marked(ViewOf(m), Then), InsideIf(place))
  {
    hide Shape, ViewOf, Holds, Flatten;
    CondLayout(prog, v.pc, b);
  }

  lemma {:induction false} SimulateThen(w: World, prog: seq<Item>, m: Machine, depth: nat, v: View, b: Block,
                                        place: Place, fuel: nat)
    returns (n: nat)
    requires Steady(w, prog, place) && AtThen(prog, m, depth, v, b, place, false)
    ensures BranchAgrees(prog, Run(w, prog, m, n), n, fuel, depth, v, FiAt(v, b),
                         Acts(w, Head(b.thenCmd, b.thn), place != Outside, StateOf(ViewOf(m)), fuel), place)
    decreases fuel, 5
  {
    hide Step, Run, Shape, ViewOf, Holds, Flatten, Acts, Opens, Fits, CutTo, KeepsLines, Sound;
    OpensThen(prog, m, depth, v, b, place);
    n := SimulateHead(w, prog, m, depth, Then, b.thenCmd, b.thn, InsideIf(place), fuel);
    n := FinishThen(w, prog, m, n, depth, v, b, place, fuel,
                    Acts(w, Head(b.thenCmd, b.thn), place != Outside, StateOf(ViewOf(m)), fuel));
  }

  /** The then part has been run to its end, with result r: pass over the else part. */
  lemma FinishThen(w: World, prog: seq<Item>, m: Machine, n: nat, depth: nat, v: View, b: Block, place: Place,
                   fuel: nat,
                   r: Result)
    returns (k: nat)
    requires Steady(w, prog, place) && AtThen(prog, m, depth, v, b, place, false)
    requires Fits(Marked(ViewOf(m), Then), InsideIf(place))
    requires Agrees(prog, Run(w, prog, m, n), n, fuel, depth, Marked(ViewOf(m), Then), ThenEnd(v, b), r,
                    InsideIf(place))
    ensures BranchAgrees(prog, Run(w, prog, m, k), k, fuel, depth, v, FiAt(v, b), r, place)
  {
    hide Step, Run, Shape, ViewOf, Holds, Flatten, Fits, CutTo, Steady, Sound, AtFi;
    k := n;
    if r.Result? && r.out == Normal {
      var a := SkipElse(w, prog, Run(w, prog, m, n), depth, v, b, false);
      RunSplits(w, prog, m, n, a);
      k := n + a;
    } else if r.Result? && r.out == Broke(false) {
      CondLayout(prog, v.pc, b);
      LoseBranch(w, prog, m, n, depth, Marked(ViewOf(m), Then), ThenEnd(v, b), r, place,
                 if b.hasElse then [Else] + b.elseCmd else [Fi]);
      k := n + 1;
    }
  }

  /** Skip the then part of a conditional whose condition asks for the else part. */
  lemma SkipThen(w: World, prog: seq<Item>, m: Machine, depth: nat, v: View, b: Block, place: Place) returns (n: nat)
    requires AtThen(prog, m, depth, v, b, place, true)
    ensures Running(Run(w, prog, m, n), depth)
    ensures ViewOf(Run(w, prog, m, n)) ==
            ViewOf(m).(pc := ThenEnd(v, b), ie := Over(ItefLevel(ItefThen, false, true, b.inverted), v.ie))
  {
    hide Step, Run, Shape, ViewOf, Holds, Flatten, Sound;
    CondLayout(prog, v.pc, b);
    SkipCarrier(w, prog, m, depth, Then, b.thenCmd);
    RunOne(w, prog, m);
    n := Skip(w, prog, Run(w, prog, m, 1), depth, b.thn);
    RunSplits(w, prog, m, 1, n);
    n := 1 + n;
  }

  lemma OpensElse(prog: seq<Item>, m: Machine, depth: nat, v: View, b: Block, place: Place)
    requires b.Cond? && b.hasElse && Running(m, depth) && Ready(v) && Fits(v, place)
    requires WellWorded(b) && Sound(b, place) && Holds(prog, v.pc, Flatten(b))
    requires Height(v.ie) + IfDepth(b) <= depth && Height(v.lp) + LoopDepth(b) <= depth
    requires ViewOf(m) == v.(pc := ThenEnd(v, b), ie := Over(ItefLevel(ItefThen, false, true, b.inverted), v.ie),
                             history := m.history, fail := m.np.fail)
    ensures Opens(prog, m, depth, Else, b.elseCmd, b.els, InsideIf(place))
    ensures Fits(Marked(ViewOf(m), Else), InsideIf(place))
  {
    hide Shape, ViewOf, Holds, Flatten;
    CondLayout(prog, v.pc, b);
  }

  lemma {:induction false} SimulateElse(w: World, prog: seq<Item>, m: Machine, depth: nat, v: View, b: Block,
                                        place: Place, fuel: nat)
    returns (n: nat)
    requires Steady(w, prog, place) && AtThen(prog, m, depth, v, b, place, true)
    ensures BranchAgrees(prog, Run(w, prog, m, n), n, fuel, depth, v, FiAt(v, b),
                         Acts(w, if b.hasElse then Head(b.elseCmd, b.els) else Nil,
                              place != Outside, StateOf(ViewOf(m)), fuel), place)
    decreases fuel, 5
  {
    hide Step, Run, Shape, ViewOf, Holds, Flatten, Opens, WellWorded, IfDepth, LoopDepth, Sound;
    hide Fits, CutTo, KeepsLines, Acts;
    ActsNothing(w, place != Outside, StateOf(ViewOf(m)), fuel);
    n := SkipThen(w, prog, m, depth, v, b, place);
    if b.hasElse {
      var m' := Run(w, prog, m, n);
      OpensElse(prog, m', depth, v, b, place);
      var c := SimulateHead(w, prog, m', depth, Else, b.elseCmd, b.els, InsideIf(place), fuel);
      c := FinishElse(w, prog, m', c, depth, v, b, place, fuel,
                      Acts(w, Head(b.elseCmd, b.els), place != Outside, StateOf(ViewOf(m')), fuel));
      RunSplits(w, prog, m, n, c);
      n := n + c;
    }
  }

  /** The else part has been run to its end, with result r. */
  lemma FinishElse(w: World, prog: seq<Item>, m: Machine, n: nat, depth: nat, v: View, b: Block, place: Place,
                   fuel: nat,
                   r: Result)
    returns (k: nat)
    requires Steady(w, prog, place) && b.Cond? && b.hasElse && Holds(prog, v.pc, Flatten(b))
    requires Shape(m.np) && Fits(Marked(ViewOf(m), Else), InsideIf(place))
    requires ViewOf(m) == v.(pc := ThenEnd(v, b), ie := Over(ItefLevel(ItefThen, false, true, b.inverted), v.ie),
                             history := m.history, fail := m.np.fail)
    requires Agrees(prog, Run(w, prog, m, n), n, fuel, depth, Marked(ViewOf(m), Else), FiAt(v, b), r, InsideIf(place))
    ensures k >= n && BranchAgrees(prog, Run(w, prog, m, k), k, fuel, depth, v, FiAt(v, b), r, place)
  {
    hide Step, Run, Shape, ViewOf, Holds, Flatten, Fits, CutTo, Steady;
    k := n;
    if r.Result? && r.out == Broke(false) {
      CondLayout(prog, v.pc, b);
      LoseBranch(w, prog, m, n, depth, Marked(ViewOf(m), Else), FiAt(v, b), r, place, [Fi]);
      k := n + 1;
    }
  }

  /** The condition of a conditional. */
  lemma OpenCond(w: World, prog: seq<Item>, m: Machine, depth: nat, b: Block, place: Place)
    requires b.Cond? && Before(prog, m, depth, b) && Sound(b, place) && Fits(ViewOf(m), place)
    ensures var s := RunCommand(w, b.cond, StateOf(ViewOf(m)));
            var m' := Run(w, prog, m, 1);
            && AtThen(prog, m', depth, ViewOf(m), b, place, b.inverted != s.fail)
            && StateOf(ViewOf(m')) == s.(fail := false)
  {
    hide Step, Run, Shape, ViewOf, Holds, Flatten;
    CondLayout(prog, m.pc, b);
    StepIf(w, prog, m, depth, b.inverted, b.cond);
    RunOne(w, prog, m);
  }

  /** The `fi` of a conditional whose branches are done with. */
  lemma CloseCond(w: World, prog: seq<Item>, m: Machine, n: nat, depth: nat, v: View, fi: int, r: Result,
                  place: Place, fuel: nat)
    returns (k: nat)
    requires Shape(m.np) && n > 0 && BranchAgrees(prog, Run(w, prog, m, n), n, fuel, depth, v, fi, r, place)
    requires ItemAt(prog, fi, [Fi]) && Ready(v)
    ensures k > 0 && Agrees(prog, Run(w, prog, m, k), k, fuel, depth, v, fi + 1, FromBranch(r), place)
    ensures r.Result? && r.out == Normal ==> Run(w, prog, m, k).ok
  {
    hide Step, Run, Shape, ViewOf;
    k := n;
    if r.Result? && r.out == Normal {
      StepFi(w, prog, Run(w, prog, m, n), depth);
      RunThenStep(w, prog, m, n);
      k := n + 1;
    }
  }

  /** A conditional up to and including its `fi`, and the result r of the branch it takes. */
  lemma {:induction false} SimulateCond(w: World, prog: seq<Item>, m: Machine, depth: nat, b: Block, place: Place,
                                        fuel: nat)
    returns (n: nat, r: Result)
    requires Steady(w, prog, place) && Before(prog, m, depth, b) && Sound(b, place) && Fits(ViewOf(m), place)
    requires b.Cond? && fuel > 0
    ensures n > 0
    ensures Agrees(prog, Run(w, prog, m, n), n, fuel, depth, ViewOf(m), FiAt(ViewOf(m), b) + 1, r, place)
    ensures r.Result? && r.out.Broke? ==> r.out.inIf
    ensures r.Result? && r.out == Normal ==> Run(w, prog, m, n).ok
    ensures Acts(w, b, place != Outside, StateOf(ViewOf(m)), fuel) ==
            if r.Result? && r.out == Normal then Acts(w, b.next, place != Outside, r.s, fuel - 1) else r
    decreases fuel, 1
  {
    hide Step, Run, Shape, ViewOf, Holds, Flatten, WellWorded, IfDepth, LoopDepth, Sound;
    hide Acts, AtThen, AtFi, Agrees, Fits, Steady;
    var v := ViewOf(m);
    CondLayout(prog, m.pc, b);
    OpenCond(w, prog, m, depth, b, place);
    ActsCond(w, b, place != Outside, StateOf(v), fuel);
    var m1 := Run(w, prog, m, 1);
    if RunCommand(w, b.cond, StateOf(v)).fail == b.inverted {
      r := Acts(w, Head(b.thenCmd, b.thn), place != Outside, StateOf(ViewOf(m1)), fuel - 1);
      n := SimulateThen(w, prog, m1, depth, v, b, place, fuel - 1);
    } else {
      r := Acts(w, if b.hasElse then Head(b.elseCmd, b.els) else Nil,
                place != Outside, StateOf(ViewOf(m1)), fuel - 1);
      n := SimulateElse(w, prog, m1, depth, v, b, place, fuel - 1);
    }
    RunSplits(w, prog, m, 1, n);
    n := CloseCond(w, prog, m, 1 + n, depth, v, FiAt(v, b), r, place, fuel);
    r := FromBranch(r);
  }

  /** The condition of a loop: it leaves the machine at `do`, on a new loop level. */
  lemma OpenLoop(w: World, prog: seq<Item>, m: Machine, depth: nat, b: Block, loose: bool)
    requires b.Loop? && Before(prog, m, depth, b) && SoundAfter(b.doCmd, b.body, Body(loose))
    requires LevelEnabled(ViewOf(m).ie.level) && (loose ==> ViewOf(m).ie.level.state == ItefNormal)
    ensures var v := ViewOf(m);
            var s := RunCommand(w, b.cond, StateOf(v));
            var m' := Run(w, prog, m, 1);
            var level := LoopLevel(if b.until then LoopUntil else LoopWhile, s.fail == b.until, Height(v.ie) - 1, m.pc);
            && Running(m', depth)
            && ViewOf(m') == v.(pc := m.pc + 1, history := s.history, fail := false, lp := Over(level, v.lp))
            && (s.fail == b.until ==> Opens(prog, m', depth, Do, b.doCmd, b.body, Body(loose)))
  {
    hide Step, Run, Shape, ViewOf, Holds, Flatten;
    LoopLayout(prog, m.pc, b);
    StepLoop(w, prog, m, depth, b.until, b.cond);
    RunOne(w, prog, m);
  }

  /** A loop whose condition asks for no pass: up to its `done`. */
  lemma {:induction false} PassLoop(w: World, prog: seq<Item>, m: Machine, depth: nat, b: Block, fuel: nat)
    returns (n: nat)
    requires KeepsLines(w, prog) && Before(prog, m, depth, b) && LevelEnabled(ViewOf(m).ie.level)
    requires b.Loop? && SoundLoops(b.body) && fuel > 0
    requires RunCommand(w, b.cond, StateOf(ViewOf(m))).fail != b.until
    ensures var v := ViewOf(m);
            var s := RunCommand(w, b.cond, StateOf(v));
            var level := LoopLevel(LoopDo, false, Height(v.ie) - 1, m.pc);
            && n > 0
            && Agrees(prog, Run(w, prog, m, n), n, fuel, depth, v.(lp := Over(level, v.lp)),
                      m.pc + 2 + |Flatten(b.body)|,
                      Acts(w, BareLoops(b.body), false, s.(fail := false), fuel - 1), Outside)
    decreases fuel, 0
  {
    hide Step, Run, Shape, ViewOf, Holds, Flatten, Acts, KeepsLines, Ends;
    var v := ViewOf(m);
    OpenPassedLoop(w, prog, m, depth, b);
    var m' := Run(w, prog, m, 2);
    n := PassOver(w, prog, m', depth, b.body, fuel - 1);
    RunSplits(w, prog, m, 2, n);
    n := 2 + n;
    AgreesOnStacks(prog, Run(w, prog, m, n), n, fuel, depth, ViewOf(m'),
                   v.(lp := Over(LoopLevel(LoopDo, false, Height(v.ie) - 1, m.pc), v.lp)),
                   m.pc + 2 + |Flatten(b.body)|,
                   Acts(w, BareLoops(b.body), false, StateOf(ViewOf(m')), fuel - 1), Outside);
  }

  lemma OpenPassedLoop(w: World, prog: seq<Item>, m: Machine, depth: nat, b: Block)
    requires b.Loop? && Before(prog, m, depth, b) && LevelEnabled(ViewOf(m).ie.level)
    requires RunCommand(w, b.cond, StateOf(ViewOf(m))).fail != b.until
    ensures var v := ViewOf(m);
            var s := RunCommand(w, b.cond, StateOf(v));
            var m' := Run(w, prog, m, 2);
            var level := LoopLevel(LoopDo, false, Height(v.ie) - 1, m.pc);
            && Before(prog, m', depth, b.body) && !On(ViewOf(m'))
            && ViewOf(m') == v.(pc := m.pc + 2, history := s.history, fail := false, lp := Over(level, v.lp))
  {
    hide Step, Run, Shape, ViewOf, Holds, Flatten;
    LoopLayout(prog, m.pc, b);
    StepLoop(w, prog, m, depth, b.until, b.cond);
    RunOne(w, prog, m);
    SkipCarrier(w, prog, Run(w, prog, m, 1), depth, Do, b.doCmd);
    RunThenStep(w, prog, m, 1);
  }

  /** The `done` of a loop that started in view v and whose pass, with result r, is over. */
  lemma CloseLoop(w: World, prog: seq<Item>, m: Machine, n: nat, depth: nat, v: View, level: LoopLevel, done: int,
                  r: Result, loose: bool, fuel: nat)
    returns (k: nat)
    requires Shape(m.np) && n > 0
    requires Agrees(prog, Run(w, prog, m, n), n, fuel, depth, v.(lp := Over(level, v.lp)), done, r, Body(loose))
    requires ItemAt(prog, done, [Done]) && level.state == LoopDo && level.iendx == Height(v.ie) - 1
    ensures k > 0
    ensures var r' := if r.Result? && r.out == Broke(false) then r.(out := Normal) else r;
            var end := if level.enable && r.Result? && r.out == Normal then level.topoffs else done + 1;
            && Agrees(prog, Run(w, prog, m, k), k, fuel, depth, v, end, r', Body(loose))
            && (r'.Result? && r'.out == Normal ==> Run(w, prog, m, k).ok)
  {
    hide Step, Run, Shape, ViewOf;
    k := n;
    if r.Result? && (r.out == Normal || r.out == Broke(false)) {
      StepDone(w, prog, Run(w, prog, m, n), depth);
      RunThenStep(w, prog, m, n);
      k := n + 1;
    }
  }

  /** Only the stacks of the starting view matter to where a block ends. */
  lemma AgreesOnStacks(prog: seq<Item>, m: Machine, n: nat, least: int, depth: nat, u: View, v: View, end: int,
                       r: Result, place: Place)
    requires Agrees(prog, m, n, least, depth, u, end, r, place) && u.lp == v.lp && u.ie == v.ie
    ensures Agrees(prog, m, n, least, depth, v, end, r, place)
  {
    hide ViewOf, Running, Halted;
  }

  /** The condition of a loop that asks for a pass, and the body up to `done`. */
  lemma {:induction false} EnterLoop(w: World, prog: seq<Item>, m: Machine, depth: nat, b: Block, loose: bool,
                                     fuel: nat)
    returns (n: nat)
    requires Steady(w, prog, Body(loose)) && Before(prog, m, depth, b) && LevelEnabled(ViewOf(m).ie.level)
    requires b.Loop? && SoundAfter(b.doCmd, b.body, Body(loose)) && (loose ==> ViewOf(m).ie.level.state == ItefNormal)
    requires fuel > 0 && RunCommand(w, b.cond, StateOf(ViewOf(m))).fail == b.until
    ensures var v := ViewOf(m);
            var s := RunCommand(w, b.cond, StateOf(v));
            var level := LoopLevel(LoopDo, true, Height(v.ie) - 1, m.pc);
            && n > 0
            && Agrees(prog, Run(w, prog, m, n), n, fuel, depth, v.(lp := Over(level, v.lp)),
                      m.pc + 2 + |Flatten(b.body)|,
                      Acts(w, Head(b.doCmd, b.body), true, s.(fail := false), fuel - 1), Body(loose))
    decreases fuel, 0
  {
    hide Step, Run, Shape, ViewOf, Holds, Flatten, WellWorded, IfDepth, LoopDepth, Sound;
    hide Acts, Opens, Fits, Steady, Halted, Ends;
    var v := ViewOf(m);
    OpenLoop(w, prog, m, depth, b, loose);
    var m1 := Run(w, prog, m, 1);
    n := SimulateHead(w, prog, m1, depth, Do, b.doCmd, b.body, Body(loose), fuel - 1);
    RunSplits(w, prog, m, 1, n);
    n := 1 + n;
    var level := LoopLevel(LoopDo, true, Height(v.ie) - 1, m.pc);
    AgreesOnStacks(prog, Run(w, prog, m, n), n, fuel, depth, Marked(ViewOf(m1), Do), v.(lp := Over(level, v.lp)),
                   m.pc + 2 + |Flatten(b.body)|,
                   Acts(w, Head(b.doCmd, b.body), true, StateOf(ViewOf(m1)), fuel - 1), Body(loose));
  }

  /** One pass over a loop that no if disables: the condition and, if it holds, the body up to and
      including `done`.  What comes next is the loop itself or `next`.  Whether an outer loop is
      being passed over does not matter, and its level is as it was. */
  lemma {:induction false} SimulateLoop(w: World, prog: seq<Item>, m: Machine, depth: nat, b: Block, next: Block,
                                        inLoop: bool, place: Place, fuel: nat)
    returns (n: nat, r: Result, again: bool)
    requires KeepsLines(w, prog) && Before(prog, m, depth, b) && LevelEnabled(ViewOf(m).ie.level)
    requires b.Loop? && SoundAfter(b.doCmd, b.body, Body(false)) && fuel > 0
    ensures n > 0
    ensures Agrees(prog, Run(w, prog, m, n), n, fuel, depth, ViewOf(m),
                   if again then m.pc else m.pc + 3 + |Flatten(b.body)|, r, place)
    ensures r.Result? ==> !r.out.Broke?
    ensures r.Result? && r.out == Normal ==> Run(w, prog, m, n).ok
    ensures Acts(w, LoopThen(b, next), inLoop, StateOf(ViewOf(m)), fuel) ==
            if r.Result? && r.out == Normal
            then Acts(w, if again then LoopThen(b, next) else next, inLoop, r.s, fuel - 1) else r
    decreases fuel, 1
  {
    hide Step, Run, Shape, ViewOf, Holds, Flatten, WellWorded, IfDepth, LoopDepth, Sound;
    hide Acts, Halted, KeepsLines;
    var v := ViewOf(m);
    var s := RunCommand(w, b.cond, StateOf(v));
    var level := LoopLevel(LoopDo, s.fail == b.until, Height(v.ie) - 1, m.pc);
    LoopLayout(prog, m.pc, b);
    ActsLoop(w, LoopThen(b, next), inLoop, StateOf(v), fuel);
    if s.fail == b.until {
      r := Acts(w, Head(b.doCmd, b.body), true, s.(fail := false), fuel - 1);
      n := EnterLoop(w, prog, m, depth, b, false, fuel);
    } else {
      SoundHasSoundLoops(b.doCmd, b.body, Body(false));
      r := Acts(w, BareLoops(b.body), false, s.(fail := false), fuel - 1);
      n := PassLoop(w, prog, m, depth, b, fuel);
    }
    n := CloseLoop(w, prog, m, n, depth, v, level, m.pc + 2 + |Flatten(b.body)|, r, false, fuel);
    again := level.enable && r.Result? && r.out == Normal;
    if r.Result? && r.out.Broke? {
      r := r.(out := Normal);
    }
  }

  /** A block that only a loop disables: its bare loops are run, as if they stood alone, and all
      else is passed over; the disabled level is as it was. */
  lemma {:induction false} PassOver(w: World, prog: seq<Item>, m: Machine, depth: nat, b: Block, fuel: nat)
    returns (n: nat)
    requires KeepsLines(w, prog) && Before(prog, m, depth, b) && SoundLoops(b)
    requires !On(ViewOf(m)) && LevelEnabled(ViewOf(m).ie.level)
    ensures Agrees(prog, Run(w, prog, m, n), n, fuel, depth, ViewOf(m), m.pc + |Flatten(b)|,
                   Acts(w, BareLoops(b), false, StateOf(ViewOf(m)), fuel), Outside)
    decreases fuel, 3, b
  {
    hide Step, Run, Shape, ViewOf, Holds, Acts, KeepsLines, WellWorded, Ready, IfDepth, LoopDepth;
    match b
    case Nil =>
      n := 0;
      RunZero(w, prog, m);
      ActsNothing(w, false, StateOf(ViewOf(m)), fuel);
    case Cmd(_, next) =>
      SkipCmd(w, prog, m, depth, b);
      RunOne(w, prog, m);
      n := PassOver(w, prog, Run(w, prog, m, 1), depth, next, fuel);
      RunSplits(w, prog, m, 1, n);
      n := 1 + n;
    case Cond(_, _, _, _, _, _, _, next) =>
      var a := SkipCond(w, prog, m, depth, b);
      n := PassOver(w, prog, Run(w, prog, m, a), depth, next, fuel);
      RunSplits(w, prog, m, a, n);
      n := a + n;
    case Loop(_, _, _, _, next) =>
      if fuel == 0 {
        n := 0;
        RunZero(w, prog, m);
        LoopLayout(prog, m.pc, b);
        ActsNoFuel(w, BareLoops(b), false, StateOf(ViewOf(m)));
      } else {
        n := PassOverLoop(w, prog, m, depth, b, fuel);
      }
  }

  lemma {:induction false} PassOverLoop(w: World, prog: seq<Item>, m: Machine, depth: nat, b: Block, fuel: nat)
    returns (n: nat)
    requires KeepsLines(w, prog) && Before(prog, m, depth, b) && SoundLoops(b) && b.Loop? && fuel > 0
    requires !On(ViewOf(m)) && LevelEnabled(ViewOf(m).ie.level)
    ensures Agrees(prog, Run(w, prog, m, n), n, fuel, depth, ViewOf(m), m.pc + |Flatten(b)|,
                   Acts(w, BareLoops(b), false, StateOf(ViewOf(m)), fuel), Outside)
    decreases fuel, 2
  {
    hide Step, Run, Shape, ViewOf, Holds, Acts, KeepsLines, Flatten;
    var r, again;
    n, r, again := SimulateLoop(w, prog, m, depth, b, BareLoops(b.next), false, Outside, fuel);
    LoopLayout(prog, m.pc, b);
    if r.Result? && r.out == Normal {
      var m' := Run(w, prog, m, n);
      var k := PassOver(w, prog, m', depth, if again then b else b.next, fuel - 1);
      RunSplits(w, prog, m, n, k);
      n := n + k;
    }
  }

  lemma BrokenView(v: View, place: Place)
    requires Fits(v, place) && place != Outside && BreakAllowed([Break], place)
    ensures !On(Broken(v)) && LevelEnabled(Broken(v).ie.level)
  {
  }

  lemma {:induction false} SimulateCmd(w: World, prog: seq<Item>, m: Machine, depth: nat, b: Block, place: Place,
                                       fuel: nat)
    returns (n: nat)
    requires Steady(w, prog, place) && Before(prog, m, depth, b) && Sound(b, place) && Fits(ViewOf(m), place)
    requires b.Cmd? && fuel > 0
    ensures Agrees(prog, Run(w, prog, m, n), n, fuel, depth, ViewOf(m), m.pc + |Flatten(b)|,
                   Acts(w, b, place != Outside, StateOf(ViewOf(m)), fuel), place)
    ensures Reports(Run(w, prog, m, n), b, Acts(w, b, place != Outside, StateOf(ViewOf(m)), fuel))
    decreases fuel, 1
  {
    hide Step, Run, Shape, ViewOf, Holds, Flatten, Acts;
    CmdLayout(prog, m.pc, b);
    LineKept(w, prog, m.pc, b.words, m.history, m.np.fail);
    CommandStep(w, prog, m, depth, b.words, place);
    RunOne(w, prog, m);
    n := AfterCommand(w, prog, Run(w, prog, m, 1), depth, ViewOf(m), b.words, b.next, place, fuel);
    RunSplits(w, prog, m, 1, n);
    n := 1 + n;
  }

  /** n steps have led to the end of a compound statement, or stopped; go on with `next`. */
  lemma {:induction false} SimulateNext(w: World, prog: seq<Item>, m: Machine, n: nat, depth: nat, v: View, at: int,
                                        next: Block, r: Result, place: Place, fuel: nat)
    returns (k: nat)
    requires Shape(m.np) && Steady(w, prog, place) && fuel > 0
    requires Agrees(prog, Run(w, prog, m, n), n, fuel, depth, v, at, r, place)
    requires r.Result? && r.out.Broke? ==> r.out.inIf
    requires r.Result? && r.out == Normal ==> Run(w, prog, m, n).ok
    requires Ready(v) && WellWorded(next) && Holds(prog, at, Flatten(next)) && Sound(next, place) && Fits(v, place)
    requires Height(v.ie) + IfDepth(next) <= depth && Height(v.lp) + LoopDepth(next) <= depth
    requires n > 0
    ensures Agrees(prog, Run(w, prog, m, k), k, fuel, depth, v, at + |Flatten(next)|,
                   if r.Result? && r.out == Normal then Acts(w, next, place != Outside, r.s, fuel - 1) else r, place)
    ensures Reports(Run(w, prog, m, k), next,
                    if r.Result? && r.out == Normal then Acts(w, next, place != Outside, r.s, fuel - 1) else r)
    decreases fuel, 0
  {
    hide Step, Run, Shape, ViewOf, Holds, Flatten, Acts, WellWorded, IfDepth, LoopDepth, Sound;
    k := n;
    if r.Result? && r.out == Normal {
      var a := Simulate(w, prog, Run(w, prog, m, n), depth, next, place, fuel - 1);
      RunSplits(w, prog, m, n, a);
      k := n + a;
    }
  }

  /** The main simulation: the machine does with block b, next in the script, what `Acts` says. */
  lemma {:induction false} Simulate(w: World, prog: seq<Item>, m: Machine, depth: nat, b: Block, place: Place,
                                    fuel: nat)
    returns (n: nat)
    requires Steady(w, prog, place) && Before(prog, m, depth, b) && Sound(b, place) && Fits(ViewOf(m), place)
    ensures Agrees(prog, Run(w, prog, m, n), n, fuel, depth, ViewOf(m), m.pc + |Flatten(b)|,
                   Acts(w, b, place != Outside, StateOf(ViewOf(m)), fuel), place)
    ensures b.Nil? ==> n == 0
    ensures !b.Nil? ==> Reports(Run(w, prog, m, n), b, Acts(w, b, place != Outside, StateOf(ViewOf(m)), fuel))
    decreases fuel, 2
  {
    hide Step, Run, Shape, ViewOf, Holds, Flatten, Acts;
    if b.Nil? || fuel == 0 {
      n := 0;
      ActsEdges(w, prog, m.pc, b, place != Outside, StateOf(ViewOf(m)), fuel);
      RunZero(w, prog, m);
    } else if b.Cmd? {
      n := SimulateCmd(w, prog, m, depth, b, place, fuel);
    } else if b.Cond? {
      var r;
      n, r := SimulateCond(w, prog, m, depth, b, place, fuel);
      CondLayout(prog, m.pc, b);
      n := SimulateNext(w, prog, m, n, depth, ViewOf(m), FiAt(ViewOf(m), b) + 1, b.next, r, place, fuel);
    } else {
      var r, again;
      n, r, again := SimulateLoop(w, prog, m, depth, b, b.next, place != Outside, place, fuel);
      LoopLayout(prog, m.pc, b);
      n := SimulateNext(w, prog, m, n, depth, ViewOf(m), if again then m.pc else m.pc + 3 + |Flatten(b.body)|,
                        if again then b else b.next, r, place, fuel);
    }
  }

  lemma ActsEdges(w: World, prog: seq<Item>, at: int, b: Block, inLoop: bool, s: State, fuel: nat)
    requires b.Nil? || fuel == 0
    requires Holds(prog, at, Flatten(b))
    ensures Acts(w, b, inLoop, s, fuel) == if b.Nil? then Result(Normal, s) else Timeout
    ensures if b.Nil? then Flatten(b) == [] else 0 <= at < |prog|
  {
  }
}
