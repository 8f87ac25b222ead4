/** Loops directly inside loops: exactly the programs that have none of them run as they are
    meant. */
module NestedLoops {
  import opened ParserState
  import opened ParserSafety
  import opened FlatMachine
  import opened Structured
  import opened StructuredTheorems
  import opened Departures

  // ----- Which loops are reached -----

  /** A loop of block b that may be run has a loop directly in its body. */
  predicate Nests(b: Block, inLoop: bool)
    decreases b, 0
  {
    match b
    case Nil => false
    case Cmd(c, next) => NestsAfter(c, next, inLoop)
    case Cond(_, _, thenCmd, thn, hasElse, elseCmd, els, next) =>
      || NestsAfter(thenCmd, thn, inLoop)
      || (hasElse && NestsAfter(elseCmd, els, inLoop))
      || Nests(next, inLoop)
    case Loop(_, _, doCmd, body, next) =>
      !NoBareLoop(body) || NestsAfter(doCmd, body, true) || Nests(next, inLoop)
  }

  predicate NestsAfter(c: seq<Token>, b: Block, inLoop: bool)
    decreases b, 1
  {
    !(IsBreak(c) && inLoop) && Nests(b, inLoop)
  }

  predicate Strict(place: Place) {
    place != Outside ==> !place.loose
  }

  lemma {:induction false} PlacedIff(c: seq<Token>, b: Block, place: Place)
    requires SoundAfter(c, b, place) && Strict(place)
    ensures PlacedAfter(c, b, place) <==> !NestsAfter(c, b, place != Outside) && (place.Body? ==> NoBareLoop(b))
    decreases b
  {
    if !(IsBreak(c) && place != Outside) {
      match b
      case Nil =>
      case Cmd(c', next) => PlacedIff(c', next, place);
      case Cond(_, _, thenCmd, thn, hasElse, elseCmd, els, next) =>
        PlacedIff(thenCmd, thn, InsideIf(place));
        if hasElse {
          PlacedIff(elseCmd, els, InsideIf(place));
        }
        PlacedIff([], next, place);
      case Loop(_, _, doCmd, body, next) =>
        PlacedIff(doCmd, body, Body(false));
        PlacedIff([], next, place);
    }
  }

  lemma {:induction false} SoundInIf(c: seq<Token>, b: Block)
    requires SoundAfter(c, b, InIf(false))
    ensures BreakFreeAfter(c, b)
    decreases b
  {
    match b
    case Nil =>
    case Cmd(c', next) => SoundInIf(c', next);
    case Cond(_, _, thenCmd, thn, hasElse, elseCmd, els, next) =>
      SoundInIf(thenCmd, thn);
      if hasElse {
        SoundInIf(elseCmd, els);
      }
      SoundInIf([], next);
    case Loop(_, _, _, _, next) => SoundInIf([], next);
  }

  /** The branches of a conditional in a loop have no `break` of that loop. */
  lemma SoundBranches(b: Block, place: Place)
    requires b.Cond? && Sound(b, place) && Strict(place) && place != Outside
    ensures BranchesBreakFree(b)
  {
    SoundInIf(b.thenCmd, b.thn);
    if b.hasElse {
      SoundInIf(b.elseCmd, b.els);
    }
  }

  lemma {:induction false} SoundIsNotLive(c: seq<Token>, b: Block, place: Place)
    requires SoundAfter(c, b, place) && Strict(place) && place != Outside
    ensures !LiveAfter(c, b)
    decreases b
  {
    if !IsBreak(c) {
      match b
      case Nil =>
      case Cmd(c', next) => SoundIsNotLive(c', next, place);
      case Cond(_, _, _, _, _, _, _, next) =>
        SoundBranches(b, place);
        SoundIsNotLive([], next, place);
      case Loop(_, _, _, _, next) => SoundIsNotLive([], next, place);
    }
  }

  // ----- How many commands NSH runs at least -----

  lemma {:induction false} ActsExtend(w: World, b: Block, inLoop: bool, s: State, fuel: nat)
    ensures var r := Acts(w, b, inLoop, s, fuel);
            r.Result? ==> |r.s.history| >= |s.history|
    decreases fuel
  {
    if !b.Nil? && fuel > 0 {
      match b
      case Cmd(c, next) =>
        if IsBreak(c) && inLoop {
          ActsExtend(w, BareLoops(next), false, s.(fail := false), fuel - 1);
        } else {
          ActsExtend(w, next, inLoop, if IsBreak(c) then s.(fail := false) else RunCommand(w, c, s), fuel - 1);
        }
      case Cond(_, _, _, _, _, _, _, next) =>
        var s' := RunCommand(w, b.cond, s).(fail := false);
        ActsExtend(w, Branch(w, b, s), inLoop, s', fuel - 1);
        var r := Acts(w, Branch(w, b, s), inLoop, s', fuel - 1);
        if r.Result? {
          ActsExtend(w, next, inLoop, r.s, fuel - 1);
        }
      case Loop(until, cond, doCmd, body, next) =>
        var s' := RunCommand(w, cond, s);
        var first := if s'.fail != until then BareLoops(body) else Head(doCmd, body);
        ActsExtend(w, first, s'.fail == until, s'.(fail := false), fuel - 1);
        var r := Acts(w, first, s'.fail == until, s'.(fail := false), fuel - 1);
        if r.Result? {
          ActsExtend(w, b, inLoop, r.s, fuel - 1);
          ActsExtend(w, next, inLoop, r.s, fuel - 1);
        }
    }
  }

  /** Only a `break` of the surrounding loop ends a block like a `break`. */
  lemma {:induction false} ActsBreak(w: World, b: Block, inLoop: bool, s: State, fuel: nat)
    ensures var r := Acts(w, b, inLoop, s, fuel);
            r.Result? && r.out.Broke? ==> inLoop && !BreakFree(b)
    decreases fuel
  {
    if !b.Nil? && fuel > 0 {
      match b
      case Cmd(c, next) =>
        if IsBreak(c) && inLoop {
          ActsBreak(w, BareLoops(next), false, s.(fail := false), fuel - 1);
        } else {
          ActsBreak(w, next, inLoop, if IsBreak(c) then s.(fail := false) else RunCommand(w, c, s), fuel - 1);
        }
      case Cond(_, _, thenCmd, thn, hasElse, elseCmd, els, next) =>
        var s' := RunCommand(w, b.cond, s).(fail := false);
        ActsBreak(w, Branch(w, b, s), inLoop, s', fuel - 1);
        var r := Acts(w, Branch(w, b, s), inLoop, s', fuel - 1);
        if r.Result? {
          ActsBreak(w, next, inLoop, r.s, fuel - 1);
        }
      case Loop(until, cond, doCmd, body, next) =>
        var s' := RunCommand(w, cond, s);
        if s'.fail != until {
          ActsBreak(w, BareLoops(body), false, s'.(fail := false), fuel - 1);
        }
        var first := if s'.fail != until then BareLoops(body) else Head(doCmd, body);
        var r := Acts(w, first, s'.fail == until, s'.(fail := false), fuel - 1);
        if r.Result? {
          ActsBreak(w, b, inLoop, r.s, fuel - 1);
          ActsBreak(w, next, inLoop, r.s, fuel - 1);
        }
    }
  }

  /** However long it takes, NSH runs at least as many commands as the shortest way through. */
  lemma {:induction false} ActsCost(w: World, b: Block, inLoop: bool, s: State, fuel: nat)
    requires inLoop ==> !LiveBreakInIf(b)
    ensures var r := Acts(w, b, inLoop, s, fuel);
            r.Result? && r.out != Stopped ==> |r.s.history| >= |s.history| + |Quit(b, inLoop)|
    decreases fuel, 1
  {
    if b.Nil? {
      ActsNothing(w, inLoop, s, fuel);
    } else if fuel == 0 {
      ActsNoFuel(w, b, inLoop, s);
    } else {
      hide Acts;
      match b
      case Cmd(c, next) => CmdCost(w, c, next, inLoop, s, fuel);
      case Cond(_, _, _, _, _, _, _, _) => CondCost(w, b, inLoop, s, fuel);
      case Loop(_, _, _, _, _) => LoopCost(w, b, inLoop, s, fuel);
    }
  }

  lemma {:induction false} CmdCost(w: World, c: seq<Token>, b: Block, inLoop: bool, s: State, fuel: nat)
    requires fuel > 0 && (inLoop ==> !LiveAfter(c, b))
    ensures var r := Acts(w, Cmd(c, b), inLoop, s, fuel);
            r.Result? && r.out != Stopped ==> |r.s.history| >= |s.history| + |QuitAfter(c, b, inLoop)|
    decreases fuel, 0
  {
    hide Acts;
    ActsCmd(w, c, b, inLoop, s, fuel);
    if IsBreak(c) && inLoop {
      ActsExtend(w, BareLoops(b), false, s.(fail := false), fuel - 1);
    } else {
      ActsCost(w, b, inLoop, if IsBreak(c) then s.(fail := false) else RunCommand(w, c, s), fuel - 1);
    }
  }

  lemma {:induction false} HeadCost(w: World, c: seq<Token>, b: Block, inLoop: bool, s: State, fuel: nat)
    requires inLoop ==> BreakFreeAfter(c, b)
    ensures var r := Acts(w, Head(c, b), inLoop, s, fuel);
            r.Result? && r.out != Stopped ==>
              !r.out.Broke? && |r.s.history| >= |s.history| + |QuitAfter(c, b, inLoop)|
    decreases fuel, 2
  {
    hide Acts;
    FreeHasNoLiveBreak(c, b);
    ActsBreak(w, Head(c, b), inLoop, s, fuel);
    if c == [] {
      ActsCost(w, b, inLoop, s, fuel);
    } else if fuel == 0 {
      ActsNoFuel(w, Cmd(c, b), inLoop, s);
    } else {
      CmdCost(w, c, b, inLoop, s, fuel);
    }
  }

  lemma {:induction false} CondCost(w: World, b: Block, inLoop: bool, s: State, fuel: nat)
    requires b.Cond? && fuel > 0 && (inLoop ==> !LiveBreakInIf(b))
    ensures var r := Acts(w, b, inLoop, s, fuel);
            r.Result? && r.out != Stopped ==> |r.s.history| >= |s.history| + |Quit(b, inLoop)|
    decreases fuel, 0
  {
    hide Acts, QuitAfter;
    ActsCond(w, b, inLoop, s, fuel);
    var s' := RunCommand(w, b.cond, s).(fail := false);
    var branch := Branch(w, b, s);
    var r := Acts(w, branch, inLoop, s', fuel - 1);
    if RunCommand(w, b.cond, s).fail == b.inverted {
      HeadCost(w, b.thenCmd, b.thn, inLoop, s', fuel - 1);
    } else if b.hasElse {
      HeadCost(w, b.elseCmd, b.els, inLoop, s', fuel - 1);
    } else {
      ActsNothing(w, inLoop, s', fuel - 1);
    }
    assert |s'.history| == |s.history| + 1;
    assert |Quit(b, inLoop)| == |QuitCond(b, inLoop)| + |Quit(b.next, inLoop)|;
    assert r.Result? && r.out != Stopped ==> |r.s.history| >= |s.history| + |QuitCond(b, inLoop)|;
    if r.Result? {
      ActsCost(w, b.next, inLoop, r.s, fuel - 1);
    }
  }

  lemma {:induction false} LoopCost(w: World, b: Block, inLoop: bool, s: State, fuel: nat)
    requires b.Loop? && fuel > 0 && (inLoop ==> !LiveBreakInIf(b))
    ensures var r := Acts(w, b, inLoop, s, fuel);
            r.Result? && r.out != Stopped ==> |r.s.history| >= |s.history| + |Quit(b, inLoop)|
    decreases fuel, 0
  {
    hide Acts;
    ActsLoop(w, b, inLoop, s, fuel);
    var s' := RunCommand(w, b.cond, s);
    var first := if s'.fail != b.until then BareLoops(b.body) else Head(b.doCmd, b.body);
    var r := Acts(w, first, s'.fail == b.until, s'.(fail := false), fuel - 1);
    ActsExtend(w, first, s'.fail == b.until, s'.(fail := false), fuel - 1);
    ActsBreak(w, first, s'.fail == b.until, s'.(fail := false), fuel - 1);
    if r.Result? {
      ActsCost(w, b, inLoop, r.s, fuel - 1);
      ActsCost(w, b.next, inLoop, r.s, fuel - 1);
    }
  }

  // ----- A run to the first loop inside a loop -----

  /** Outcomes with which the meaning of block b comes to a loop that has a loop directly in its
      body, leaves it at once, and takes the shortest way from there. */
  function Path(b: Block, inLoop: bool): seq<bool>
    requires Nests(b, inLoop)
    decreases b, 0
  {
    match b
    case Cmd(c, next) => PathAfter(c, next, inLoop)
    case Cond(inverted, _, thenCmd, thn, hasElse, elseCmd, els, next) =>
      if NestsAfter(thenCmd, thn, inLoop) then
        [inverted] + PathAfter(thenCmd, thn, inLoop) + Quit(next, inLoop)
      else if hasElse && NestsAfter(elseCmd, els, inLoop) then
        [!inverted] + PathAfter(elseCmd, els, inLoop) + Quit(next, inLoop)
      else
        QuitCond(b, inLoop) + Path(next, inLoop)
    case Loop(until, _, doCmd, body, next) =>
      if !NoBareLoop(body) then
        [!until] + Quit(next, inLoop)
      else if NestsAfter(doCmd, body, true) then
        [until] + PathAfter(doCmd, body, true) + Leave(b) + Quit(next, inLoop)
      else
        [!until] + Path(next, inLoop)
  }

  function PathAfter(c: seq<Token>, b: Block, inLoop: bool): seq<bool>
    requires NestsAfter(c, b, inLoop)
    decreases b, 1
  {
    First(c) + Path(b, inLoop)
  }

  /** After one pass, a loop without `break` is left by its condition. */
  function Leave(b: Block): seq<bool>
    requires b.Loop?
  {
    if BreakFreeAfter(b.doCmd, b.body) then [!b.until] else []
  }

  /** Block b may be run at this place, has a loop directly inside a loop, and commands will turn
      out as its path asks for. */
  ghost predicate OnPath(w: World, b: Block, place: Place, s: State) {
    && WellWorded(b) && Sound(b, place) && Strict(place) && Nests(b, place != Outside)
    && Follows(w, |s.history|, Path(b, place != Outside))
  }

  ghost predicate OnPathAfter(w: World, c: seq<Token>, b: Block, place: Place, s: State) {
    && WellWorded(b) && SoundAfter(c, b, place) && Strict(place) && NestsAfter(c, b, place != Outside)
    && Follows(w, |s.history|, PathAfter(c, b, place != Outside))
  }

  /** Then its meaning ends, after this many commands. */
  lemma {:induction false} PathEnds(w: World, b: Block, place: Place, s: State) returns (fuel: nat, t: State)
    requires OnPath(w, b, place, s)
    ensures Exec(w, b, place != Outside, s, fuel) == Result(Ending(b, place != Outside), t)
    ensures |t.history| == |s.history| + |Path(b, place != Outside)|
    decreases b, 2
  {
    hide Exec, Follows;
    match b
    case Cmd(c, next) =>
      fuel, t := PathAfterEnds(w, c, next, place, s);
    case Cond(_, _, thenCmd, thn, hasElse, elseCmd, els, _) =>
      if NestsAfter(thenCmd, thn, place != Outside) {
        fuel, t := PathInBranchEnds(w, b, true, place, s);
      } else if hasElse && NestsAfter(elseCmd, els, place != Outside) {
        fuel, t := PathInBranchEnds(w, b, false, place, s);
      } else {
        fuel, t := PathAfterCondEnds(w, b, place, s);
      }
    case Loop(_, _, _, _, _) =>
      fuel, t := PathLoopEnds(w, b, place, s);
  }

  lemma {:induction false} PathAfterEnds(w: World, c: seq<Token>, b: Block, place: Place, s: State)
    returns (fuel: nat, t: State)
    requires OnPathAfter(w, c, b, place, s)
    ensures Exec(w, Head(c, b), place != Outside, s, fuel) == Result(EndingAfter(c, b, place != Outside), t)
    ensures |t.history| == |s.history| + |PathAfter(c, b, place != Outside)|
    decreases b, 3
  {
    hide Exec, Follows, RunCommand, Path, Sound, Nests, WellWorded, BreakFree;
    var path := Path(b, place != Outside);
    FollowsSplit(w, |s.history|, First(c), path);
    if c == [] {
      fuel, t := PathEnds(w, b, place, s);
    } else {
      var s' := if IsBreak(c) then s.(fail := false) else RunCommand(w, c, s);
      if !IsBreak(c) {
        FollowsOne(w, false, s, c);
      }
      fuel, t := PathEnds(w, b, place, s');
      fuel := fuel + 1;
      ExecCmd(w, c, b, place != Outside, s, fuel);
    }
  }

  /** The path goes through a branch of conditional b. */
  ghost predicate OnPathInBranch(w: World, b: Block, inThen: bool, place: Place, s: State)
    requires b.Cond?
  {
    var c := if inThen then b.thenCmd else b.elseCmd;
    var branch := if inThen then b.thn else b.els;
    && WellWorded(b) && Sound(b, place) && Strict(place) && (inThen || b.hasElse)
    && NestsAfter(c, branch, place != Outside)
    && Follows(w, |s.history|, [b.inverted == inThen] + PathAfter(c, branch, place != Outside)
                               + Quit(b.next, place != Outside))
  }

  /** The branch that the path takes. */
  lemma PathTakesBranch(w: World, b: Block, inThen: bool, place: Place, s: State) returns (s': State)
    requires b.Cond? && OnPathInBranch(w, b, inThen, place, s)
    ensures var c := if inThen then b.thenCmd else b.elseCmd;
            var branch := if inThen then b.thn else b.els;
            && s' == RunCommand(w, b.cond, s).(fail := false) && |s'.history| == |s.history| + 1
            && Branch(w, b, s) == Head(c, branch) && OnPathAfter(w, c, branch, InsideIf(place), s')
            && (place != Outside ==> BreakFreeAfter(c, branch) && !LiveBreakInIf(b.next))
            && Follows(w, |s'.history| + |PathAfter(c, branch, place != Outside)|, Quit(b.next, place != Outside))
  {
    hide Follows, Quit, PathAfter, LiveBreakInIf;
    var c := if inThen then b.thenCmd else b.elseCmd;
    var branch := if inThen then b.thn else b.els;
    var path := PathAfter(c, branch, place != Outside);
    FollowsSplit(w, |s.history|, [b.inverted == inThen] + path, Quit(b.next, place != Outside));
    FollowsSplit(w, |s.history|, [b.inverted == inThen], path);
    FollowsOne(w, b.inverted == inThen, s, b.cond);
    s' := RunCommand(w, b.cond, s).(fail := false);
    if place != Outside {
      SoundBranches(b, place);
      SoundIsNotLive([], b.next, place);
    }
  }

  lemma {:induction false} PathInBranchEnds(w: World, b: Block, inThen: bool, place: Place, s: State)
    returns (fuel: nat, t: State)
    requires b.Cond? && OnPathInBranch(w, b, inThen, place, s)
    ensures Exec(w, b, place != Outside, s, fuel) == Result(Ending(b, place != Outside), t)
    ensures var path := PathAfter(if inThen then b.thenCmd else b.elseCmd, if inThen then b.thn else b.els,
                                  place != Outside);
            |t.history| == |s.history| + 1 + |path| + |Quit(b.next, place != Outside)|
    decreases b, 0
  {
    hide Exec, Follows, RunCommand, PathAfter, Quit, OnPathAfter;
    var c := if inThen then b.thenCmd else b.elseCmd;
    var branch := if inThen then b.thn else b.els;
    var s' := PathTakesBranch(w, b, inThen, place, s);
    var f, u := PathAfterEnds(w, c, branch, InsideIf(place), s');
    var g, t' := QuitEnds(w, b.next, place != Outside, u);
    fuel, t := 1 + Max(f, g), t';
    if place != Outside {
      SoundBranches(b, place);
    }
    BranchAndOn(w, b, place != Outside, s, u, f, g, Result(Ending(b, place != Outside), t));
  }

  lemma {:induction false} PathAfterCondEnds(w: World, b: Block, place: Place, s: State) returns (fuel: nat, t: State)
    requires b.Cond? && WellWorded(b) && Sound(b, place) && Strict(place) && Nests(b.next, place != Outside)
    requires Follows(w, |s.history|, QuitCond(b, place != Outside) + Path(b.next, place != Outside))
    ensures Exec(w, b, place != Outside, s, fuel) == Result(Ending(b, place != Outside), t)
    ensures |t.history| == |s.history| + |QuitCond(b, place != Outside)| + |Path(b.next, place != Outside)|
    decreases b, 0
  {
    hide Exec, Follows, RunCommand, QuitCond, Path;
    var inLoop := place != Outside;
    FollowsSplit(w, |s.history|, QuitCond(b, inLoop), Path(b.next, inLoop));
    if inLoop {
      SoundBranches(b, place);
    }
    var f, u := QuitBranchEnds(w, b, inLoop, s);
    var g, t' := PathEnds(w, b.next, place, u);
    fuel, t := 1 + Max(f, g), t';
    BranchAndOn(w, b, inLoop, s, u, f, g, Result(Ending(b, inLoop), t));
  }

  lemma {:induction false} PathLoopEnds(w: World, b: Block, place: Place, s: State) returns (fuel: nat, t: State)
    requires b.Loop? && OnPath(w, b, place, s)
    ensures Exec(w, b, place != Outside, s, fuel) == Result(Ending(b, place != Outside), t)
    ensures |t.history| == |s.history| + |Path(b, place != Outside)|
    decreases b, 1
  {
    hide Exec, Follows, RunCommand, PathAfter, Quit, LiveBreakInIf, SoundAfter, NestsAfter;
    var inLoop := place != Outside;
    if inLoop {
      SoundNext(b, place);
      SoundIsNotLive([], b.next, place);
    }
    if NoBareLoop(b.body) && NestsAfter(b.doCmd, b.body, true) {
      fuel, t := PathThroughLoopEnds(w, b, inLoop, s);
    } else {
      var s' := PathLeavesLoop(w, b, place, s);
      if NoBareLoop(b.body) {
        fuel, t := PathEnds(w, b.next, place, s');
      } else {
        fuel, t := QuitEnds(w, b.next, inLoop, s');
      }
      fuel := fuel + 1;
      ExecLoop(w, b, inLoop, s, fuel);
    }
  }

  lemma SoundNext(b: Block, place: Place)
    requires b.Loop? && Sound(b, place)
    ensures SoundAfter([], b.next, place)
  {
  }

  /** Where the path does not go through the body of loop b, it leaves the loop at once. */
  lemma PathLeavesLoop(w: World, b: Block, place: Place, s: State) returns (s': State)
    requires b.Loop? && OnPath(w, b, place, s) && (NoBareLoop(b.body) ==> !NestsAfter(b.doCmd, b.body, true))
    ensures s' == RunCommand(w, b.cond, s).(fail := false) && |s'.history| == |s.history| + 1
    ensures RunCommand(w, b.cond, s).fail != b.until
    ensures if NoBareLoop(b.body) then OnPath(w, b.next, place, s')
            else Follows(w, |s'.history|, Quit(b.next, place != Outside))
  {
    hide Follows, RunCommand, Quit, SoundAfter, NestsAfter;
    var rest := if NoBareLoop(b.body) then Path(b.next, place != Outside) else Quit(b.next, place != Outside);
    FollowsSplit(w, |s.history|, [!b.until], rest);
    FollowsOne(w, !b.until, s, b.cond);
    s' := RunCommand(w, b.cond, s).(fail := false);
  }

  /** The path goes through the body of loop b. */
  ghost predicate OnPathInLoop(w: World, b: Block, inLoop: bool, s: State)
    requires b.Loop?
  {
    && WellWorded(b) && SoundAfter(b.doCmd, b.body, Body(false)) && NestsAfter(b.doCmd, b.body, true)
    && (inLoop ==> !LiveBreakInIf(b.next))
    && Follows(w, |s.history|, [b.until] + PathAfter(b.doCmd, b.body, true) + Leave(b) + Quit(b.next, inLoop))
  }

  lemma PathTakesPass(w: World, b: Block, inLoop: bool, s: State) returns (s': State)
    requires b.Loop? && OnPathInLoop(w, b, inLoop, s)
    ensures var path := PathAfter(b.doCmd, b.body, true);
            && s' == RunCommand(w, b.cond, s).(fail := false) && |s'.history| == |s.history| + 1
            && RunCommand(w, b.cond, s).fail == b.until && OnPathAfter(w, b.doCmd, b.body, Body(false), s')
            && Follows(w, |s'.history| + |path|, Leave(b))
            && Follows(w, |s'.history| + |path| + |Leave(b)|, Quit(b.next, inLoop))
  {
    hide Follows, Quit, PathAfter, Leave;
    var path := PathAfter(b.doCmd, b.body, true);
    FollowsSplit(w, |s.history|, [b.until] + path + Leave(b), Quit(b.next, inLoop));
    FollowsSplit(w, |s.history|, [b.until] + path, Leave(b));
    FollowsSplit(w, |s.history|, [b.until], path);
    FollowsOne(w, b.until, s, b.cond);
    s' := RunCommand(w, b.cond, s).(fail := false);
  }

  lemma {:induction false} PathThroughLoopEnds(w: World, b: Block, inLoop: bool, s: State)
    returns (fuel: nat, t: State)
    requires b.Loop? && OnPathInLoop(w, b, inLoop, s)
    ensures Exec(w, b, inLoop, s, fuel) == Result(Ending(b, inLoop), t)
    ensures |t.history| ==
            |s.history| + 1 + |PathAfter(b.doCmd, b.body, true)| + |Leave(b)| + |Quit(b.next, inLoop)|
    decreases b, 0
  {
    hide Exec, Follows, RunCommand, PathAfter, Quit, OnPathAfter, LiveBreakInIf;
    var s' := PathTakesPass(w, b, inLoop, s);
    var f, u := PathAfterEnds(w, b.doCmd, b.body, Body(false), s');
    var g;
    if BreakFreeAfter(b.doCmd, b.body) {
      FollowsOne(w, !b.until, u, b.cond);
      g, t := QuitEnds(w, b.next, inLoop, RunCommand(w, b.cond, u).(fail := false));
      g := g + 1;
      ExecLoop(w, b, inLoop, u, g);
    } else {
      g, t := QuitEnds(w, b.next, inLoop, u);
    }
    fuel := 1 + Max(f, g);
    ExecMonotone(w, Head(b.doCmd, b.body), true, s', f, Max(f, g));
    ExecMonotone(w, if BreakFreeAfter(b.doCmd, b.body) then b else b.next, inLoop, u, g, Max(f, g));
    ExecLoop(w, b, inLoop, s, fuel);
  }

  // ----- What NSH does on that path -----

  /** NSH does not end the block on the same path without running more commands. */
  ghost predicate Overruns(r: Result, s: State, n: nat) {
    r.Result? && r.out != Stopped ==> |r.s.history| > |s.history| + n
  }

  lemma {:induction false} PathOverruns(w: World, b: Block, place: Place, s: State, fuel: nat)
    requires OnPath(w, b, place, s)
    ensures Overruns(Acts(w, b, place != Outside, s, fuel), s, |Path(b, place != Outside)|)
    decreases b, 2
  {
    hide Acts, Follows;
    if fuel == 0 {
      ActsNoFuel(w, b, place != Outside, s);
    } else {
      match b
      case Cmd(c, next) =>
        PathAfterOverruns(w, c, next, place, s, fuel);
      case Cond(_, _, thenCmd, thn, hasElse, elseCmd, els, _) =>
        if NestsAfter(thenCmd, thn, place != Outside) {
          BranchOverruns(w, b, true, place, s, fuel);
        } else if hasElse && NestsAfter(elseCmd, els, place != Outside) {
          BranchOverruns(w, b, false, place, s, fuel);
        } else {
          AfterCondOverruns(w, b, place, s, fuel);
        }
      case Loop(_, _, _, _, _) =>
        LoopOverruns(w, b, place, s, fuel);
    }
  }

  lemma {:induction false} PathAfterOverruns(w: World, c: seq<Token>, b: Block, place: Place, s: State, fuel: nat)
    requires OnPathAfter(w, c, b, place, s)
    ensures Overruns(Acts(w, Head(c, b), place != Outside, s, fuel), s, |PathAfter(c, b, place != Outside)|)
    decreases b, 3
  {
    hide Acts, Follows, RunCommand, Path, Sound, Nests, WellWorded;
    FollowsSplit(w, |s.history|, First(c), Path(b, place != Outside));
    if c == [] {
      PathOverruns(w, b, place, s, fuel);
    } else if fuel == 0 {
      ActsNoFuel(w, Cmd(c, b), place != Outside, s);
    } else {
      var s' := if IsBreak(c) then s.(fail := false) else RunCommand(w, c, s);
      if !IsBreak(c) {
        FollowsOne(w, false, s, c);
      }
      ActsCmd(w, c, b, place != Outside, s, fuel);
      PathOverruns(w, b, place, s', fuel - 1);
    }
  }

  lemma {:induction false} BranchOverruns(w: World, b: Block, inThen: bool, place: Place, s: State, fuel: nat)
    requires b.Cond? && OnPathInBranch(w, b, inThen, place, s) && fuel > 0
    ensures var path := PathAfter(if inThen then b.thenCmd else b.elseCmd, if inThen then b.thn else b.els,
                                  place != Outside);
            Overruns(Acts(w, b, place != Outside, s, fuel), s, 1 + |path| + |Quit(b.next, place != Outside)|)
    decreases b, 0
  {
    hide Acts, Follows, RunCommand, PathAfter, Quit, OnPathAfter, LiveBreakInIf;
    var c := if inThen then b.thenCmd else b.elseCmd;
    var branch := if inThen then b.thn else b.els;
    var s' := PathTakesBranch(w, b, inThen, place, s);
    ActsCond(w, b, place != Outside, s, fuel);
    PathAfterOverruns(w, c, branch, InsideIf(place), s', fuel - 1);
    ActsBreak(w, Head(c, branch), place != Outside, s', fuel - 1);
    var r := Acts(w, Head(c, branch), place != Outside, s', fuel - 1);
    if r.Result? {
      ActsCost(w, b.next, place != Outside, r.s, fuel - 1);
    }
  }

  /** A conditional without such loops is run as it is meant. */
  lemma {:induction false} AfterCondOverruns(w: World, b: Block, place: Place, s: State, fuel: nat)
    requires b.Cond? && WellWorded(b) && Sound(b, place) && Strict(place) && Nests(b.next, place != Outside)
    requires !NestsAfter(b.thenCmd, b.thn, place != Outside)
    requires b.hasElse ==> !NestsAfter(b.elseCmd, b.els, place != Outside)
    requires Follows(w, |s.history|, QuitCond(b, place != Outside) + Path(b.next, place != Outside))
    requires fuel > 0
    ensures Overruns(Acts(w, b, place != Outside, s, fuel), s,
                     |QuitCond(b, place != Outside)| + |Path(b.next, place != Outside)|)
    decreases b, 0
  {
    hide Acts, Exec, Follows, RunCommand, QuitCond, Path, NestsAfter;
    var inLoop := place != Outside;
    FollowsSplit(w, |s.history|, QuitCond(b, inLoop), Path(b.next, inLoop));
    if inLoop {
      SoundBranches(b, place);
    }
    var s' := RunCommand(w, b.cond, s).(fail := false);
    var f, u := QuitBranchEnds(w, b, inLoop, s);
    ActsCond(w, b, inLoop, s, fuel);
    BranchActsAsMeant(w, b, place, s, fuel - 1);
    var r := Acts(w, Branch(w, b, s), inLoop, s', fuel - 1);
    if r.Result? {
      SameResult(w, Branch(w, b, s), inLoop, s', f, fuel - 1);
      PathOverruns(w, b.next, place, u, fuel - 1);
    }
  }

  lemma BranchActsAsMeant(w: World, b: Block, place: Place, s: State, fuel: nat)
    requires b.Cond? && Sound(b, place) && Strict(place) && !NestsAfter(b.thenCmd, b.thn, place != Outside)
    requires b.hasElse ==> !NestsAfter(b.elseCmd, b.els, place != Outside)
    ensures var s' := RunCommand(w, b.cond, s).(fail := false);
            Acts(w, Branch(w, b, s), place != Outside, s', fuel) == Exec(w, Branch(w, b, s), place != Outside, s', fuel)
  {
    hide Acts, Exec, RunCommand, NestsAfter;
    PlacedIff(b.thenCmd, b.thn, InsideIf(place));
    HeadPlaced(b.thenCmd, b.thn, InsideIf(place));
    if b.hasElse {
      PlacedIff(b.elseCmd, b.els, InsideIf(place));
      HeadPlaced(b.elseCmd, b.els, InsideIf(place));
    }
    PlacedActsAsMeant(w, Branch(w, b, s), InsideIf(place), RunCommand(w, b.cond, s).(fail := false), fuel);
  }

  /** Results do not depend on the fuel that they are reached with. */
  lemma SameResult(w: World, b: Block, inLoop: bool, s: State, f: nat, g: nat)
    requires Exec(w, b, inLoop, s, f).Result? && Exec(w, b, inLoop, s, g).Result?
    ensures Exec(w, b, inLoop, s, f) == Exec(w, b, inLoop, s, g)
  {
    hide Exec;
    ExecMonotone(w, b, inLoop, s, f, Max(f, g));
    ExecMonotone(w, b, inLoop, s, g, Max(f, g));
  }

  lemma {:induction false} LoopOverruns(w: World, b: Block, place: Place, s: State, fuel: nat)
    requires b.Loop? && OnPath(w, b, place, s) && fuel > 0
    ensures Overruns(Acts(w, b, place != Outside, s, fuel), s, |Path(b, place != Outside)|)
    decreases b, 1
  {
    hide Acts, Follows, RunCommand, PathAfter, Quit, LiveBreakInIf, SoundAfter, NestsAfter;
    var inLoop := place != Outside;
    if inLoop {
      SoundNext(b, place);
      SoundIsNotLive([], b.next, place);
    }
    if NoBareLoop(b.body) && NestsAfter(b.doCmd, b.body, true) {
      ThroughLoopOverruns(w, b, inLoop, s, fuel);
    } else {
      var s' := PathLeavesLoop(w, b, place, s);
      ActsLoop(w, b, inLoop, s, fuel);
      if NoBareLoop(b.body) {
        NoBareLoops(b.body);
        ActsNothing(w, false, s', fuel - 1);
        PathOverruns(w, b.next, place, s', fuel - 1);
      } else {
        BareLoopsRun(w, b.body, s', fuel - 1);
        var r := Acts(w, BareLoops(b.body), false, s', fuel - 1);
        if r.Result? {
          ActsCost(w, b.next, inLoop, r.s, fuel - 1);
        }
      }
    }
  }

  /** Passing over a body with a loop in it runs at least one command. */
  lemma BareLoopsRun(w: World, b: Block, s: State, fuel: nat)
    requires !NoBareLoop(b)
    ensures var r := Acts(w, BareLoops(b), false, s, fuel);
            r.Result? && r.out != Stopped ==> r.out == Normal && |r.s.history| > |s.history|
  {
    hide Acts;
    BareLoopsIsLoop(b);
    ActsCost(w, BareLoops(b), false, s, fuel);
    ActsBreak(w, BareLoops(b), false, s, fuel);
  }

  lemma {:induction false} BareLoopsIsLoop(b: Block)
    requires !NoBareLoop(b)
    ensures BareLoops(b).Loop?
  {
    if !b.Loop? {
      BareLoopsIsLoop(b.next);
    }
  }

  lemma {:induction false} ThroughLoopOverruns(w: World, b: Block, inLoop: bool, s: State, fuel: nat)
    requires b.Loop? && OnPathInLoop(w, b, inLoop, s) && fuel > 0
    ensures Overruns(Acts(w, b, inLoop, s, fuel), s,
                     1 + |PathAfter(b.doCmd, b.body, true)| + |Leave(b)| + |Quit(b.next, inLoop)|)
    decreases b, 0
  {
    hide Acts, Follows, RunCommand, PathAfter, OnPathAfter;
    var s' := PathTakesPass(w, b, inLoop, s);
    ActsLoop(w, b, inLoop, s, fuel);
    PathAfterOverruns(w, b.doCmd, b.body, Body(false), s', fuel - 1);
    ActsBreak(w, Head(b.doCmd, b.body), true, s', fuel - 1);
    var r := Acts(w, Head(b.doCmd, b.body), true, s', fuel - 1);
    if r.Result? {
      ActsCost(w, b, inLoop, r.s, fuel - 1);
      ActsCost(w, b.next, inLoop, r.s, fuel - 1);
    }
  }

  // ----- The theorem -----

  /** The machine halts, as r says. */
  ghost predicate HaltsAs(w: World, prog: seq<Item>, np: Parser, h: History, depth: nat, r: Result)
    requires Shape(np)
  {
    exists n: nat ::
      Halted(prog, Run(w, prog, Start(np, h), n)) && Final(prog, Run(w, prog, Start(np, h), n), depth, r)
  }

  /** Whatever commands do and wherever lines end: whenever the meaning of the script terminates,
      the machine halts, as the meaning says. */
  ghost predicate RunsAsMeant(b: Block, depth: nat) {
    forall w: World, prog: seq<Item>, np: Parser, h: History, fuel: nat
      | AtRest(np, depth) && IsScript(prog, b) && KeepsLines(w, prog)
        && Exec(w, b, false, State(h, np.fail), fuel).Result? ::
        HaltsAs(w, prog, np, h, depth, Exec(w, b, false, State(h, np.fail), fuel))
  }

  /** A program that NSH can read runs as it is meant exactly if no loop stands directly inside a
      loop. */
  lemma RunsAsMeantIff(b: Block, depth: nat)
    requires Readable(b, depth)
    ensures RunsAsMeant(b, depth) <==> Placed(b, Outside)
  {
    hide Exec, Run, Readable;
    if Placed(b, Outside) {
      assert Runnable(b, depth) by {
        RunnableIff(b, depth);
      }
      forall w: World, prog: seq<Item>, np: Parser, h: History, fuel: nat
        | AtRest(np, depth) && IsScript(prog, b) && KeepsLines(w, prog)
          && Exec(w, b, false, State(h, np.fail), fuel).Result?
        ensures HaltsAs(w, prog, np, h, depth, Exec(w, b, false, State(h, np.fail), fuel))
      {
        var n := MeaningIsReached(w, b, prog, np, h, depth, fuel);
      }
    } else {
      NestingDeparts(b, depth);
    }
  }

  lemma RunnableIff(b: Block, depth: nat)
    requires Readable(b, depth)
    ensures Runnable(b, depth) <==> Placed(b, Outside)
  {
  }

  lemma NestingDeparts(b: Block, depth: nat)
    requires Readable(b, depth) && !Placed(b, Outside)
    ensures !RunsAsMeant(b, depth)
  {
    hide Exec, Run, Follows, Steering, Path, Nests;
    PlacedIff([], b, Outside);
    var bits := Path(b, false);
    var w := Steering(bits);
    SteeringFollows(bits);
    var prog := seq(|Flatten(b)|, i requires 0 <= i < |Flatten(b)| => Item(Flatten(b)[i], true));
    var np := Initial(depth);
    var fuel, t := PathEnds(w, b, Outside, State([], np.fail));
    forall n: nat
      ensures !(Halted(prog, Run(w, prog, Start(np, []), n))
                && Final(prog, Run(w, prog, Start(np, []), n), depth, Result(Normal, t)))
    {
      NestingIsSeen(w, b, prog, np, depth, n);
    }
    assert AtRest(np, depth) && IsScript(prog, b) && KeepsLines(w, prog);
    assert !HaltsAs(w, prog, np, [], depth, Exec(w, b, false, State([], np.fail), fuel));
  }

  /** On the path, the machine does not halt normally without having run more commands. */
  lemma NestingIsSeen(w: World, b: Block, prog: seq<Item>, np: Parser, depth: nat, n: nat)
    requires AtRest(np, depth) && Readable(b, depth) && IsScript(prog, b) && KeepsLines(w, prog)
    requires OnPath(w, b, Outside, State([], np.fail))
    ensures var m := Run(w, prog, Start(np, []), n);
            Halted(prog, m) && !m.stopped ==> |m.history| > |Path(b, false)|
  {
    hide Acts, Run, OnPath, Readable, IsScript, KeepsLines, Path, Nests;
    var k := ActsAreReached(w, b, prog, np, [], depth, n + 1);
    var r := Acts(w, b, false, State([], np.fail), n + 1);
    PathOverruns(w, b, Outside, State([], np.fail), n + 1);
    if Halted(prog, Run(w, prog, Start(np, []), n)) {
      if r.Timeout? {
        HaltsOnce(w, prog, Start(np, []), n, k);
      } else {
        ScriptActs(w, b, prog, np, [], depth, n + 1, n);
      }
    }
  }

  /** `while a; do while b; do c; done; done`. */
  function NestedScript(a: seq<Token>, b: seq<Token>, c: seq<Token>): Block {
    Loop(false, a, [], Loop(false, b, [], Cmd(c, Nil), Nil), Nil)
  }

  lemma NestedScriptIsReadable(a: seq<Token>, b: seq<Token>, c: seq<Token>)
    requires LoopCondition(a) && LoopCondition(b) && Plain(c) && !IsBreak(c)
    ensures Readable(NestedScript(a, b, c), 3)
  {
    hide LoopCondition, Plain;
    assert WellWorded(Nil) && LoopDepth(Nil) == 0 && IfDepth(Nil) == 0;
    assert Sound(Nil, Body(false)) && Sound(Nil, Outside);
    var body := Cmd(c, Nil);
    assert WellWorded(body) && LoopDepth(body) == 0 && IfDepth(body) == 0;
    assert Sound(body, Body(false)) by {
      assert SoundAfter(c, Nil, Body(false));
    }
    var inner := Loop(false, b, [], body, Nil);
    assert WellWorded(inner) && LoopDepth(inner) == 1 && IfDepth(inner) == 0;
    assert SoundAfter([], body, Body(false));
    assert Sound(inner, Body(false));
    var script := NestedScript(a, b, c);
    assert WellWorded(script) && LoopDepth(script) == 2 && IfDepth(script) == 0;
    assert SoundAfter([], inner, Body(false));
    assert Sound(script, Outside);
  }

  /** If a fails at once, this program means to run a and nothing else; but NSH runs the inner loop
      for as long as b does not fail. */
  lemma NestedExample(a: seq<Token>, b: seq<Token>, c: seq<Token>, fail: bool)
    requires LoopCondition(a) && LoopCondition(b) && Plain(c) && !IsBreak(c)
    ensures var w := Steering([true, false, false, true]);
            var script := NestedScript(a, b, c);
            var s := State([], fail);
            && Readable(script, 3)
            && Exec(w, script, false, s, 4) == Result(Normal, State([Event(a, fail)], false))
            && Acts(w, script, false, s, 4) ==
               Result(Normal, State([Event(a, fail), Event(b, false), Event(c, false), Event(b, false)], false))
  {
    var w := Steering([true, false, false, true]);
    var script := NestedScript(a, b, c);
    var inner := script.body;
    NestedScriptIsReadable(a, b, c);
    var s0, s1 := State([Event(a, fail)], false), State([Event(a, fail), Event(b, false)], false);
    var s2 := State([Event(a, fail), Event(b, false), Event(c, false)], false);
    assert RunCommand(w, a, State([], fail)) == s0.(fail := true);
    assert RunCommand(w, b, s0) == s1 && RunCommand(w, c, s1) == s2;
    assert BareLoops(inner) == inner && BareLoops(inner.body) == Nil;
    assert Acts(w, inner.body, true, s1, 2) == Result(Normal, s2);
    assert RunCommand(w, b, s2).fail;
    assert Acts(w, inner, false, s2, 2) == Result(Normal, RunCommand(w, b, s2).(fail := false));
    assert Acts(w, inner, false, s0, 3) == Result(Normal, RunCommand(w, b, s2).(fail := false));
  }
}
