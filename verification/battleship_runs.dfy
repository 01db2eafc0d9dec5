/** The two-player game over whole runs: what the attacks leave on the grids, how long a game lasts and
    how it ends. */
module BattleshipRuns {
  import opened Common
  import opened Battleship

  // ----- what the attacks do -----

  predicate AcceptedShot(p: Player, e: Event) {
    e.Prompt? && 0 <= e.input < |p.advGrid| && e.input != FORFEIT && p.advGrid[e.input] == DEFAULT
  }

  /** The cell attacked, if any. */
  function NewAttack(p: Player, e: Event): set<int> {
    if AcceptedShot(p, e) then {e.input} else {}
  }

  /** The cells that a player typed in and that were accepted, in the first i steps. */
  ghost function AttackedBy(states: seq<Game>, steps: seq<Step>, byA: bool, i: nat): set<int>
    requires i <= |steps| < |states|
  {
    if i == 0 then {}
    else
      var g, st := states[i - 1], steps[i - 1];
      AttackedBy(states, steps, byA, i - 1)
      + if st.byA == byA then NewAttack(if byA then g.a else g.b, st.event) else {}
  }

  /** A grid that was g0 at the start: exactly the cells attacked, up to the attack in flight, are
      marked, as hits where there was a boat; and only cells attacked are in flight. */
  ghost predicate GridShot(g0: Grid, grid: Grid, attacked: set<int>, channel: seq<Msg>) {
    && |grid| == |g0|
    && (forall c :: 0 <= c < |g0| ==>
          grid[c] == if c !in attacked || Cell(c) in channel then g0[c]
                     else if g0[c] == BOAT then SUNKEN_BOAT else MISSED_SHOT)
    && (forall c :: Cell(c) in channel ==> c in attacked)
  }

  ghost predicate OnlyBoats(g0: Grid) {
    forall c :: 0 <= c < |g0| ==> g0[c] == BOAT || g0[c] == DEFAULT
  }

  /** A player who is to attack has nothing of its own in flight that is a cell, and an exact map. */
  lemma AttackerKnows(g: Game, n: nat)
    requires Inv(g, n) && g.a.phase.Top? && Attacking(g.a)
    ensures forall c :: Cell(c) !in g.ab
    ensures |g.a.advGrid| == |g.b.userGrid| && g.a.advGrid == Hidden(g.b.userGrid)
  {
  }

  /** The next byte that a defender reads as a cell is the only one on its way. */
  lemma OneAttack(g: Game, n: nat)
    requires Inv(g, n) && g.ab != [] && (ReadsAttack(g.b) || ReadsResult(g.b))
    ensures g.ab[0].Cell? ==> ReadsAttack(g.b) && g.ab == [g.ab[0]]
                              && 0 <= g.ab[0].cell < |g.b.userGrid| && g.ab[0].cell != FORFEIT
    ensures ReadsAttack(g.b) ==> g.ab[0].Cell? || g.ab[0].Forfeit?
  {
    InvSwap(g, n);
    FirstByte(Swap(g), n);
  }

  lemma AStepShoots(g0: Grid, attacked: set<int>, g: Game, n: nat, e: Event, g': Game)
    requires Inv(g, n) && Steps(g, true, e, g') && GridShot(g0, g.b.userGrid, attacked, g.ab) && OnlyBoats(g0)
    ensures GridShot(g0, g'.b.userGrid, attacked + NewAttack(g.a, e), g'.ab)
  {
    if AcceptedShot(g.a, e) {
      AttackerKnows(g, n);
      assert Hidden(g.b.userGrid)[e.input] == DEFAULT;
      assert g'.ab == g.ab + [Cell(e.input)];
    } else {
      assert g'.ab == g.ab || exists m: Msg :: !m.Cell? && g'.ab == g.ab + [m];
      assert forall c :: Cell(c) in g'.ab <==> Cell(c) in g.ab;
    }
  }

  lemma BStepShoots(g0: Grid, attacked: set<int>, g: Game, n: nat, e: Event, g': Game)
    requires Inv(g, n) && Steps(g, false, e, g') && GridShot(g0, g.b.userGrid, attacked, g.ab) && OnlyBoats(g0)
    ensures GridShot(g0, g'.b.userGrid, attacked, g'.ab)
  {
    if e.Receive? {
      OneAttack(g, n);
      assert g.ab == [g.ab[0]] + g'.ab;
      if g.ab[0].Cell? {
        AttackLands(g0, attacked, g, g.ab[0].cell, g');
      } else {
        assert g'.b.userGrid == g.b.userGrid;
        assert forall c :: Cell(c) in g'.ab <==> Cell(c) in g.ab;
      }
    } else {
      assert g'.ab == g.ab && g'.b.userGrid == g.b.userGrid;
    }
  }

  lemma AttackLands(g0: Grid, attacked: set<int>, g: Game, c: int, g': Game)
    requires ReadsAttack(g.b) && g.ab == [Cell(c)] && 0 <= c < |g.b.userGrid| && Steps(g, false, Receive, g')
    requires GridShot(g0, g.b.userGrid, attacked, g.ab) && c != FORFEIT
    ensures GridShot(g0, g'.b.userGrid, attacked, g'.ab)
  {
    assert Cell(c) in g.ab && g'.ab == [];
    assert forall d :: Cell(d) in g.ab ==> d == c;
  }

  lemma StepShoots(g0: Grid, attacked: set<int>, g: Game, n: nat, byA: bool, e: Event, g': Game)
    requires Inv(g, n) && Steps(g, byA, e, g') && GridShot(g0, g.b.userGrid, attacked, g.ab) && OnlyBoats(g0)
    ensures GridShot(g0, g'.b.userGrid, if byA then attacked + NewAttack(g.a, e) else attacked, g'.ab)
  {
    if byA {
      AStepShoots(g0, attacked, g, n, e, g');
    } else {
      BStepShoots(g0, attacked, g, n, e, g');
    }
  }

  /** Over every run and for both players: the cells of a grid that are marked are exactly the cells
      that the opponent typed in and that were accepted, up to the one attack in flight; hits where a
      boat was placed, misses elsewhere. */
  lemma {:induction false} AttacksLand(states: seq<Game>, steps: seq<Step>, n: nat, k: nat, i: nat)
    requires Run(states, steps, n, k) && i < |states|
    ensures OnlyBoats(states[0].a.userGrid) && OnlyBoats(states[0].b.userGrid)
    ensures GridShot(states[0].b.userGrid, states[i].b.userGrid, AttackedBy(states, steps, true, i), states[i].ab)
    ensures GridShot(states[0].a.userGrid, states[i].a.userGrid, AttackedBy(states, steps, false, i), states[i].ba)
    decreases i
  {
    if i > 0 {
      AttacksLand(states, steps, n, k, i - 1);
      ShotsOnB(states, steps, n, k, i);
      ShotsOnA(states, steps, n, k, i);
    }
  }

  lemma ShotsOnB(states: seq<Game>, steps: seq<Step>, n: nat, k: nat, i: nat)
    requires Run(states, steps, n, k) && 0 < i < |states| && OnlyBoats(states[0].b.userGrid)
    requires GridShot(states[0].b.userGrid, states[i - 1].b.userGrid, AttackedBy(states, steps, true, i - 1), states[i - 1].ab)
    ensures GridShot(states[0].b.userGrid, states[i].b.userGrid, AttackedBy(states, steps, true, i), states[i].ab)
  {
    var g, st, g' := states[i - 1], steps[i - 1], states[i];
    ReachableInv(states, steps, n, k, i - 1);
    RunLink(states, steps, n, k, i - 1);
    StepShoots(states[0].b.userGrid, AttackedBy(states, steps, true, i - 1), g, n, st.byA, st.event, g');
  }

  lemma ShotsOnA(states: seq<Game>, steps: seq<Step>, n: nat, k: nat, i: nat)
    requires Run(states, steps, n, k) && 0 < i < |states| && OnlyBoats(states[0].a.userGrid)
    requires GridShot(states[0].a.userGrid, states[i - 1].a.userGrid, AttackedBy(states, steps, false, i - 1), states[i - 1].ba)
    ensures GridShot(states[0].a.userGrid, states[i].a.userGrid, AttackedBy(states, steps, false, i), states[i].ba)
  {
    var g, st, g' := states[i - 1], steps[i - 1], states[i];
    ReachableInv(states, steps, n, k, i - 1);
    RunLink(states, steps, n, k, i - 1);
    InvSwap(g, n);
    SwapSteps(g, st.byA, st.event, g');
    StepShoots(states[0].a.userGrid, AttackedBy(states, steps, false, i - 1), Swap(g), n, !st.byA, st.event, Swap(g'));
  }

  /** Who forfeits is out, its byte is the last one it sends, and nothing else changes. */
  lemma ForfeitMeaning(g: Game, e: Event, g': Game)
    requires Steps(g, true, e, g') && ForfeitEvent(e)
    ensures g' == g.(a := g.a.(phase := Done(ForfeitLost)), ab := g.ab + [Forfeit])
  {
  }

  /** An attack sends the cell typed in, and waits for its result; a cell already attacked is refused,
      and nothing changes. */
  lemma AttackMeaning(g: Game, c: int, g': Game)
    requires Steps(g, true, Prompt(c), g') && c != FORFEIT
    ensures g' == if g.a.advGrid[c] == DEFAULT then g.(a := g.a.(phase := AwaitResult(c)), ab := g.ab + [Cell(c)])
                  else g
  {
  }

  // ----- how long a game lasts -----

  /** Accepted attacks of a player: those of its finished attack turns, and the one under way. */
  function Shots(p: Player): nat {
    p.firstIter / 2
    + if p.phase.AwaitResult? || p.phase == Done(Won) || (p.phase == Done(ForfeitWon) && Attacking(p)) then 1
      else 0
  }

  lemma StepShots(g: Game, n: nat, e: Event)
    requires Inv(g, n) && EnabledA(g, e) && ReadInRange(g, e)
    ensures var g' := NextA(g, e);
            Shots(g'.a) + Shots(g'.b) == Shots(g.a) + Shots(g.b) + if AcceptedShot(g.a, e) then 1 else 0
  {
    if ReadsResult(g.a) {
      assert Attacking(g.a);
    }
  }

  /** Each side attacks a cell once, and the side that attacks second has stopped before it has
      attacked every cell. */
  lemma AtMostTwiceTheGrid(g: Game, n: nat)
    requires Inv(g, n)
    ensures Shots(g.a) + Shots(g.b) <= 2 * n - 1
  {
    if Oriented(g, n) {
      OrientedShots(g, n);
    } else {
      OrientedShots(Swap(g), n);
    }
  }

  lemma OrientedShots(g: Game, n: nat)
    requires Oriented(g, n)
    ensures Shots(g.a) + Shots(g.b) <= 2 * n - 1
  {
    MarksLeaveBoats(g.b.advGrid, g.a.userGrid);
    if ResultPending(g) {
      var v := if g.ba[0].hit then SUNKEN_BOAT else MISSED_SHOT;
      MarkCounts(g.a.advGrid, g.a.phase.cell, v);
      MarksLeaveBoats(g.a.advGrid[g.a.phase.cell := v], g.b.userGrid);
    } else {
      MarksLeaveBoats(g.a.advGrid, g.b.userGrid);
    }
  }

  ghost function ShotsIn(states: seq<Game>, steps: seq<Step>, i: nat): nat
    requires i <= |steps| < |states|
  {
    if i == 0 then 0
    else
      var g, st := states[i - 1], steps[i - 1];
      ShotsIn(states, steps, i - 1) + if AcceptedShot(if st.byA then g.a else g.b, st.event) then 1 else 0
  }

  lemma {:induction false} ShotsCounted(states: seq<Game>, steps: seq<Step>, n: nat, k: nat, i: nat)
    requires Run(states, steps, n, k) && i < |states|
    ensures Shots(states[i].a) + Shots(states[i].b) == ShotsIn(states, steps, i)
    decreases i
  {
    if i > 0 {
      ShotsCounted(states, steps, n, k, i - 1);
      RunStep(states, steps, n, k, i - 1);
    }
  }

  lemma RunStep(states: seq<Game>, steps: seq<Step>, n: nat, k: nat, i: nat)
    requires Run(states, steps, n, k) && i < |steps|
    ensures ShotsIn(states, steps, i + 1) - ShotsIn(states, steps, i) ==
            Shots(states[i + 1].a) + Shots(states[i + 1].b) - Shots(states[i].a) - Shots(states[i].b)
  {
    ReachableInv(states, steps, n, k, i);
    RunLink(states, steps, n, k, i);
    ShotsStep(states[i], n, steps[i], states[i + 1]);
  }

  lemma ShotsStep(g: Game, n: nat, st: Step, g': Game)
    requires Inv(g, n) && Steps(g, st.byA, st.event, g')
    ensures Shots(g'.a) + Shots(g'.b) == Shots(g.a) + Shots(g.b)
            + if AcceptedShot(if st.byA then g.a else g.b, st.event) then 1 else 0
  {
    InvSwap(g, n);
    StepShots(if st.byA then g else Swap(g), n, st.event);
  }

  /** No run has more than 2 n - 1 accepted attacks. */
  lemma ShotBound(states: seq<Game>, steps: seq<Step>, n: nat, k: nat)
    requires Run(states, steps, n, k)
    ensures ShotsIn(states, steps, |steps|) <= 2 * n - 1
  {
    ShotsCounted(states, steps, n, k, |steps|);
    ReachableInv(states, steps, n, k, |steps|);
    AtMostTwiceTheGrid(states[|steps|], n);
  }

  function Weight(channel: seq<Msg>): nat {
    if channel == [] then 0 else (if channel[0].Cell? then 2 else 1) + Weight(channel[1..])
  }

  function Alive(p: Player): nat { if p.phase.Done? then 0 else 1 }

  /** Bounds the steps left that change anything. */
  function StepsLeft(g: Game, n: nat): int {
    3 * (2 * n - 1 - Shots(g.a) - Shots(g.b)) + Weight(g.ab) + Weight(g.ba) + 3 * (Alive(g.a) + Alive(g.b))
  }

  lemma {:induction false} WeightSent(channel: seq<Msg>, m: Msg)
    ensures Weight(channel + [m]) == Weight(channel) + if m.Cell? then 2 else 1
  {
    if channel == [] {
      assert channel + [m] == [m];
    } else {
      WeightSent(channel[1..], m);
      assert (channel + [m])[1..] == channel[1..] + [m];
    }
  }

  /** Every game ends: a step changes nothing (an attack on a cell already attacked is asked again)
      or lowers a bound that is never negative. */
  lemma GameEnds(g: Game, n: nat, e: Event)
    requires Inv(g, n) && EnabledA(g, e) && ReadInRange(g, e)
    ensures var g' := NextA(g, e);
            g' == g || 0 <= StepsLeft(g', n) < StepsLeft(g, n)
  {
    var g' := NextA(g, e);
    StepKeepsInv(g, n, true, e);
    assert Steps(g, true, e, g');
    AtMostTwiceTheGrid(g', n);
    StepShots(g, n, e);
    match e {
      case Prompt(input) => PromptEnds(g, input);
      case Receive =>
        FirstByte(g, n);
        ReceiveEnds(g);
      case Interrupt => WeightSent(g.ab, Forfeit);
    }
  }

  /** What a step leaves in flight, and whether a goes on; b is as before. */
  function Activity(g: Game): nat { Weight(g.ab) + Weight(g.ba) + 3 * Alive(g.a) }

  lemma PromptEnds(g: Game, input: int)
    requires EnabledA(g, Prompt(input))
    ensures var g' := NextA(g, Prompt(input));
            && g'.b == g.b
            && (g' == g || Activity(g') < Activity(g) + if AcceptedShot(g.a, Prompt(input)) then 3 else 0)
  {
    var m := Prompted(g.a, input).1;
    if m.Some? {
      WeightSent(g.ab, m.value);
    }
  }

  lemma ReceiveEnds(g: Game)
    requires EnabledA(g, Receive) && ReadInRange(g, Receive)
    requires ReadsAttack(g.a) ==> g.ba[0].Forfeit? || g.ba[0].Cell?
    ensures NextA(g, Receive).b == g.b && Activity(NextA(g, Receive)) < Activity(g)
  {
    if ReadsAttack(g.a) {
      var m := GotAttack(g.a, Byte(g.ba[0])).1;
      if m.Some? {
        WeightSent(g.ab, m.value);
      }
    }
  }

  lemma StepsLeftSwap(g: Game, n: nat)
    ensures StepsLeft(Swap(g), n) == StepsLeft(g, n)
  {
  }

  lemma StepEnds(g: Game, n: nat, st: Step, g': Game)
    requires Inv(g, n) && Steps(g, st.byA, st.event, g')
    ensures g' == g || 0 <= StepsLeft(g', n) < StepsLeft(g, n)
  {
    if st.byA {
      GameEnds(g, n, st.event);
    } else {
      InvSwap(g, n);
      GameEnds(Swap(g), n, st.event);
      var h := NextA(Swap(g), st.event);
      StepsLeftSwap(g, n);
      StepsLeftSwap(h, n);
      assert Swap(Swap(g)) == g;
    }
  }

  /** Over a whole run: the steps taken and the bound left never exceed 6 n + 3. */
  lemma {:induction false} RunLength(states: seq<Game>, steps: seq<Step>, n: nat, k: nat, i: nat)
    requires Run(states, steps, n, k) && i < |states|
    requires forall j :: 0 <= j < i ==> states[j + 1] != states[j]
    ensures i + StepsLeft(states[i], n) <= 6 * n + 3
    decreases i
  {
    if i > 0 {
      RunLength(states, steps, n, k, i - 1);
      assert states[i - 1 + 1] != states[i - 1];
      RunStepEnds(states, steps, n, k, i - 1);
    } else {
      StepsLeftAtFirst(states[0], n, k);
    }
  }

  lemma RunStepEnds(states: seq<Game>, steps: seq<Step>, n: nat, k: nat, i: nat)
    requires Run(states, steps, n, k) && i < |steps|
    ensures states[i + 1] == states[i] || 0 <= StepsLeft(states[i + 1], n) < StepsLeft(states[i], n)
  {
    ReachableInv(states, steps, n, k, i);
    RunLink(states, steps, n, k, i);
    StepEnds(states[i], n, steps[i], states[i + 1]);
  }

  lemma StepsLeftAtFirst(g: Game, n: nat, k: nat)
    requires Initial(g, n, k)
    ensures StepsLeft(g, n) <= 6 * n + 3
  {
  }

  /** The end of a game in which nobody forfeits: when no move is left, one side has won and the
      other one has lost. */
  lemma FinishedGame(states: seq<Game>, steps: seq<Step>, n: nat, k: nat)
    requires Run(states, steps, n, k)
    requires forall j :: 0 <= j < |steps| ==> !ForfeitEvent(steps[j].event)
    requires !CanGoOn(states[|steps|])
    ensures var g := states[|steps|];
            (g.a.phase == Done(Won) && g.b.phase == Done(Lost)) || (g.a.phase == Done(Lost) && g.b.phase == Done(Won))
  {
    var g := states[|steps|];
    NoForfeitRun(states, steps, n, k, |steps|);
    assert Reachable(g, n, k);
    if !g.a.phase.Done? || !g.b.phase.Done? {
      NoDeadlock(g, n, k);
    }
    Outcomes(g, n, k);
  }
}
