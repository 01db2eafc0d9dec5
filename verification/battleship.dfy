/** The two-player game: each process attacks and defends in turn, and the two exchange single bytes
    over two FIFO channels.  The functions on `Player` are the turns of one process as they look at
    its blocking points; `Next` interleaves two of them.

    A byte on the wire does not say what it is: results (1 and 2) are also cell numbers.  In the
    channels of the model every byte carries a ghost tag that only the invariant looks at. */
module Battleship {
  import opened Common

  const DEFAULT: int := 0
  const BOAT: int := 1
  const MISSED_SHOT: int := 2
  const SUNKEN_BOAT: int := 3
  const FORFEIT: int := 127

  type Grid = seq<int>

  datatype Outcome = Won | Lost | ForfeitWon | ForfeitLost

  /** Where a process waits: at the top of the game loop (for the user when it attacks, for the
      opponent's byte when it defends), for the result of its attack, or no more. */
  datatype Phase = Top | AwaitResult(cell: nat) | Done(outcome: Outcome)

  datatype Player = Player(userGrid: Grid, advGrid: Grid, userBoats: int, advBoats: int, firstIter: nat,
                           phase: Phase)

  datatype Msg = Cell(cell: int) | Result(hit: bool) | Forfeit

  function Byte(m: Msg): int {
    match m
    case Cell(c) => c
    case Result(hit) => if hit then BOAT else MISSED_SHOT
    case Forfeit => FORFEIT
  }

  predicate Attacking(p: Player) {
    p.firstIter % 2 == 1
  }

  /** The attacker's turn up to its receive; the user typed a cell or asked to forfeit. */
  function Prompted(p: Player, input: int): (r: (Player, Option<Msg>))
    requires input == FORFEIT || 0 <= input < |p.advGrid|
  {
    if input == FORFEIT then (p.(phase := Done(ForfeitLost)), Some(Forfeit))
    else if p.advGrid[input] != DEFAULT then (p, None)
    else (p.(phase := AwaitResult(input)), Some(Cell(input)))
  }

  /** The rest of the attacker's turn, on the byte received. */
  function GotResult(p: Player, data: int): Player
    requires p.phase.AwaitResult? && p.phase.cell < |p.advGrid|
  {
    if data == FORFEIT then p.(phase := Done(ForfeitWon))
    else
      var hit := data == BOAT;
      var p' := p.(advGrid := p.advGrid[p.phase.cell := if hit then SUNKEN_BOAT else MISSED_SHOT],
                   advBoats := if hit then p.advBoats - 1 else p.advBoats);
      if p'.advBoats == 0 then p'.(phase := Done(Won))
      else p'.(phase := Top, firstIter := p.firstIter + 1)
  }

  /** The defender's turn, on the byte received. */
  function GotAttack(p: Player, data: int): (r: (Player, Option<Msg>))
    requires data == FORFEIT || 0 <= data < |p.userGrid|
  {
    if data == FORFEIT then (p.(phase := Done(ForfeitWon)), None)
    else
      var hit := p.userGrid[data] == BOAT;
      var p' := p.(userGrid := p.userGrid[data := if hit then SUNKEN_BOAT else MISSED_SHOT],
                   userBoats := if hit then p.userBoats - 1 else p.userBoats);
      (if p'.userBoats == 0 then p'.(phase := Done(Lost))
       else p'.(phase := Top, firstIter := p.firstIter + 1),
       Some(Result(hit)))
  }

  /** The defender is interrupted while it waits: it forfeits. */
  function Interrupted(p: Player): (Player, Option<Msg>) {
    (p.(phase := Done(ForfeitLost)), Some(Forfeit))
  }

  // ----- two processes -----

  /** ab and ba are the bytes in flight from a to b and from b to a. */
  datatype Game = Game(aIsServer: bool, a: Player, b: Player, ab: seq<Msg>, ba: seq<Msg>)

  function Swap(g: Game): Game {
    Game(!g.aIsServer, g.b, g.a, g.ba, g.ab)
  }

  datatype Event = Prompt(input: int) | Receive | Interrupt

  predicate ReadsResult(p: Player) { p.phase.AwaitResult? }
  predicate ReadsAttack(p: Player) { p.phase.Top? && !Attacking(p) }

  ghost predicate EnabledA(g: Game, e: Event) {
    match e
    case Prompt(input) => g.a.phase.Top? && Attacking(g.a) && (input == FORFEIT || 0 <= input < |g.a.advGrid|)
    case Receive => g.ba != [] && (ReadsResult(g.a) || ReadsAttack(g.a))
    case Interrupt => ReadsAttack(g.a)
  }

  function Sent(channel: seq<Msg>, m: Option<Msg>): seq<Msg> {
    if m.Some? then channel + [m.value] else channel
  }

  /** A step of a.  Only the bytes of the channel reach the process. */
  ghost function NextA(g: Game, e: Event): Game
    requires EnabledA(g, e)
    requires e.Receive? && ReadsResult(g.a) ==> g.a.phase.cell < |g.a.advGrid|
    requires e.Receive? && ReadsAttack(g.a) ==>
               Byte(g.ba[0]) == FORFEIT || 0 <= Byte(g.ba[0]) < |g.a.userGrid|
  {
    match e
    case Prompt(input) =>
      var (a, m) := Prompted(g.a, input);
      g.(a := a, ab := Sent(g.ab, m))
    case Receive =>
      var data := Byte(g.ba[0]);
      if ReadsResult(g.a) then g.(a := GotResult(g.a, data), ba := g.ba[1..])
      else
        var (a, m) := GotAttack(g.a, data);
        g.(a := a, ab := Sent(g.ab, m), ba := g.ba[1..])
    case Interrupt =>
      var (a, m) := Interrupted(g.a);
      g.(a := a, ab := Sent(g.ab, m))
  }

  // ----- grids -----

  /** What the opponent may know of a grid. */
  function Hidden(grid: Grid): Grid {
    seq(|grid|, i requires 0 <= i < |grid| => if grid[i] == BOAT then DEFAULT else grid[i])
  }

  function Boats(grid: Grid): nat {
    multiset(grid)[BOAT]
  }

  /** Cells already attacked, on the grid kept of the opponent. */
  function Marks(advGrid: Grid): int {
    |advGrid| - multiset(advGrid)[DEFAULT]
  }

  lemma HiddenUpdate(grid: Grid, c: nat, v: int)
    requires c < |grid| && v != BOAT
    ensures Hidden(grid[c := v]) == Hidden(grid)[c := v]
  {
  }

  lemma {:induction false} HiddenCounts(grid: Grid)
    ensures multiset(Hidden(grid))[DEFAULT] == multiset(grid)[DEFAULT] + multiset(grid)[BOAT]
  {
    if grid != [] {
      var front, last := grid[..|grid| - 1], grid[|grid| - 1];
      HiddenCounts(front);
      assert grid == front + [last];
      assert Hidden(grid) == Hidden(front) + [if last == BOAT then DEFAULT else last];
    }
  }

  /** Boats not yet hit are among the cells not yet attacked. */
  lemma MarksLeaveBoats(advGrid: Grid, userGrid: Grid)
    requires advGrid == Hidden(userGrid)
    ensures Marks(advGrid) <= |userGrid| - Boats(userGrid)
    ensures Boats(userGrid) > 0 ==> exists c: nat :: c < |advGrid| && advGrid[c] == DEFAULT
  {
    HiddenCounts(userGrid);
    if Boats(userGrid) > 0 {
      assert BOAT in userGrid;
      var c :| 0 <= c < |userGrid| && userGrid[c] == BOAT;
      assert advGrid[c] == DEFAULT;
    }
  }

  lemma MarkCounts(grid: Grid, c: nat, v: int)
    requires c < |grid|
    ensures multiset(grid[c := v])[BOAT] ==
            multiset(grid)[BOAT] - (if grid[c] == BOAT then 1 else 0) + (if v == BOAT then 1 else 0)
    ensures multiset(grid[c := v])[DEFAULT] ==
            multiset(grid)[DEFAULT] - (if grid[c] == DEFAULT then 1 else 0) + (if v == DEFAULT then 1 else 0)
  {
  }

  // ----- the invariant -----

  function Turn(p: Player, server: bool): int {
    if server then p.firstIter - 1 else p.firstIter
  }

  function TurnA(g: Game): int { Turn(g.a, g.aIsServer) }
  function TurnB(g: Game): int { Turn(g.b, !g.aIsServer) }

  /** Phases, turns and bytes in flight, when a attacks in the oldest turn that is not over. */
  ghost predicate Shape(g: Game) {
    && TurnB(g) == TurnA(g) + (if Answered(g) then 1 else 0)
    && match (g.a.phase, g.b.phase)
       case (Top, Top) => !Answered(g) && g.ab == [] && g.ba == []
       case (AwaitResult(c), Top) =>
         if Answered(g) then g.ab == [] && |g.ba| == 1 && g.ba[0].Result?
         else g.ab == [Cell(c)] && g.ba == []
       case (AwaitResult(c), AwaitResult(d)) =>
         Answered(g) && g.ab == [] && |g.ba| == 2 && g.ba[0].Result? && g.ba[1] == Cell(d)
       case (AwaitResult(c), Done(Lost)) => !Answered(g) && g.ab == [] && g.ba == [Result(true)]
       case (Done(Won), Done(Lost)) => !Answered(g) && g.ab == [] && g.ba == []
       // forfeits
       case (Done(ForfeitLost), Top) => !Answered(g) && g.ab == [Forfeit] && g.ba == []
       case (Done(ForfeitLost), Done(ForfeitWon)) => !Answered(g) && g.ab == [] && g.ba == []
       case (Done(ForfeitLost), Done(ForfeitLost)) => !Answered(g) && g.ab == [Forfeit] && g.ba == [Forfeit]
       case (Top, Done(ForfeitLost)) => !Answered(g) && g.ab == [] && g.ba == [Forfeit]
       case (AwaitResult(c), Done(ForfeitLost)) =>
         if Answered(g) then g.ab == [] && |g.ba| == 2 && g.ba[0].Result? && g.ba[1] == Forfeit
         else g.ab == [Cell(c)] && g.ba == [Forfeit]
       case (Done(ForfeitWon), Done(ForfeitLost)) =>
         !Answered(g) && |g.ab| == 1 && g.ab[0].Cell? && g.ba == []
       case _ => false
  }

  /** b has gone on to its next turn while a still waits for the result of this one. */
  ghost predicate Answered(g: Game) {
    TurnB(g) > TurnA(g)
  }

  /** b has dealt with a's attack and a has not read the result. */
  ghost predicate ResultPending(g: Game) {
    g.a.phase.AwaitResult? && (Answered(g) || g.b.phase == Done(Lost))
  }

  ghost predicate PlayerOk(p: Player, n: nat) {
    && |p.userGrid| == |p.advGrid| == n
    && p.userBoats == Boats(p.userGrid)
    && (p.phase.AwaitResult? ==> p.phase.cell < n && p.advGrid[p.phase.cell] == DEFAULT)
  }

  function Marked(grid: Grid, c: nat, hit: bool): Grid
    requires c < |grid|
  {
    grid[c := if hit then SUNKEN_BOAT else MISSED_SHOT]
  }

  /** Each side knows the other's grid, up to the one result it has not read. */
  ghost predicate GridsAgree(g: Game)
    requires Shape(g) && |g.a.advGrid| == |g.b.userGrid|
    requires g.a.phase.AwaitResult? ==> g.a.phase.cell < |g.a.advGrid|
  {
    && g.b.advGrid == Hidden(g.a.userGrid) && g.b.advBoats == Boats(g.a.userGrid)
    && if ResultPending(g) then
         && Marked(g.a.advGrid, g.a.phase.cell, g.ba[0].hit) == Hidden(g.b.userGrid)
         && g.a.advBoats - (if g.ba[0].hit then 1 else 0) == Boats(g.b.userGrid)
       else g.a.advGrid == Hidden(g.b.userGrid) && g.a.advBoats == Boats(g.b.userGrid)
  }

  /** a attacks in turn TurnA; turns alternate, so both have attacked equally often, up to the first. */
  ghost predicate Counts(g: Game)
    requires Shape(g)
  {
    && TurnA(g) >= 0
    && Attacking(g.a)
    && Boats(g.a.userGrid) > 0
    && (Boats(g.b.userGrid) == 0 <==> g.b.phase == Done(Lost))
    && Marks(g.b.advGrid) == (TurnA(g) + 1) / 2
    && Marks(g.a.advGrid) == TurnA(g) / 2 + if g.a.phase == Done(Won) then 1 else 0
  }

  ghost predicate Oriented(g: Game, n: nat) {
    && n <= FORFEIT
    && PlayerOk(g.a, n) && PlayerOk(g.b, n)
    && Shape(g)
    && GridsAgree(g)
    && Counts(g)
  }

  ghost predicate Inv(g: Game, n: nat) {
    Oriented(g, n) || Oriented(Swap(g), n)
  }

  ghost predicate Placed(grid: Grid, n: nat, k: nat) {
    && |grid| == n && Boats(grid) == k && multiset(grid)[DEFAULT] == n - k
    && forall i :: 0 <= i < n ==> grid[i] == BOAT || grid[i] == DEFAULT
  }

  ghost predicate Fresh(p: Player, n: nat, k: nat, server: bool) {
    && Placed(p.userGrid, n, k)
    && |p.advGrid| == n && (forall i :: 0 <= i < n ==> p.advGrid[i] == DEFAULT)
    && p.userBoats == k && p.advBoats == k
    && p.firstIter == (if server then 1 else 0)
    && p.phase == Top
  }

  ghost predicate Initial(g: Game, n: nat, k: nat) {
    && 1 <= k <= n <= FORFEIT
    && Fresh(g.a, n, k, g.aIsServer) && Fresh(g.b, n, k, !g.aIsServer)
    && g.ab == [] && g.ba == []
  }

  lemma {:induction false} AllDefault(grid: Grid)
    requires forall i :: 0 <= i < |grid| ==> grid[i] == DEFAULT
    ensures multiset(grid)[DEFAULT] == |grid|
  {
    if grid != [] {
      AllDefault(grid[..|grid| - 1]);
      assert grid == grid[..|grid| - 1] + [DEFAULT];
    }
  }

  lemma InitialInv(g: Game, n: nat, k: nat)
    requires Initial(g, n, k)
    ensures Inv(g, n)
  {
    AllDefault(g.a.advGrid);
    AllDefault(g.b.advGrid);
    assert g.a.advGrid == Hidden(g.b.userGrid) && g.b.advGrid == Hidden(g.a.userGrid);
    if g.aIsServer {
      assert Oriented(g, n);
    } else {
      assert Oriented(Swap(g), n);
    }
  }

  // ----- every step keeps it -----

  /** A step of the attacker of the oldest turn. */
  lemma StepAttacker(g: Game, n: nat, e: Event)
    requires Oriented(g, n) && EnabledA(g, e)
    ensures e.Receive? && ReadsResult(g.a) ==> g.a.phase.cell < |g.a.advGrid|
    ensures !ReadsAttack(g.a)
    ensures Inv(NextA(g, e), n)
  {
    match e {
      case Prompt(input) => PromptKeeps(g, n, input);
      case Receive => ResultKeeps(g, n);
      case Interrupt =>
    }
  }

  lemma PromptKeeps(g: Game, n: nat, input: int)
    requires Oriented(g, n) && EnabledA(g, Prompt(input))
    ensures Oriented(NextA(g, Prompt(input)), n)
  {
  }

  lemma ResultKeeps(g: Game, n: nat)
    requires Oriented(g, n) && EnabledA(g, Receive)
    ensures ReadsResult(g.a) && g.a.phase.cell < |g.a.advGrid|
    ensures Inv(NextA(g, Receive), n)
  {
    if !g.ba[0].Result? {
      ForfeitRead(g, n);
    } else if NextA(g, Receive).a.phase == Done(Won) {
      ResultWins(g, n);
    } else {
      ResultTurns(g, n);
    }
  }

  lemma ForfeitRead(g: Game, n: nat)
    requires Oriented(g, n) && g.a.phase.AwaitResult? && g.ba != [] && !g.ba[0].Result?
    ensures Oriented(NextA(g, Receive), n)
  {
  }

  lemma ResultWins(g: Game, n: nat)
    requires Oriented(g, n) && g.a.phase.AwaitResult? && g.ba != [] && g.ba[0].Result?
    requires NextA(g, Receive).a.phase == Done(Won)
    ensures Oriented(NextA(g, Receive), n)
  {
    assert g.ba[0].hit;
    MarkCounts(g.a.advGrid, g.a.phase.cell, SUNKEN_BOAT);
  }

  /** The result read, the turn is over and the roles are exchanged. */
  lemma ResultTurns(g: Game, n: nat)
    requires Oriented(g, n) && g.a.phase.AwaitResult? && g.ba != [] && g.ba[0].Result?
    requires NextA(g, Receive).a.phase != Done(Won)
    ensures Oriented(Swap(NextA(g, Receive)), n)
  {
    var g' := Swap(NextA(g, Receive));
    assert g.b.phase != Done(Lost) && Answered(g) && !Answered(g');
    ResultTurnsShape(g, g', n);
    ResultTurnsGrids(g, g', n);
  }

  lemma ResultTurnsGrids(g: Game, g': Game, n: nat)
    requires Oriented(g, n) && g.a.phase.AwaitResult? && g.ba != [] && g.ba[0].Result?
    requires g' == Swap(NextA(g, Receive)) && g'.b.phase == Top
    requires Answered(g) && Shape(g') && !ResultPending(g') && PlayerOk(g'.a, n)
    requires |g'.a.advGrid| == |g'.b.userGrid|
    ensures GridsAgree(g') && Counts(g')
  {
    MarkCounts(g.a.advGrid, g.a.phase.cell, if g.ba[0].hit then SUNKEN_BOAT else MISSED_SHOT);
    assert TurnA(g') == TurnB(g) == TurnA(g) + 1;
  }

  lemma ResultTurnsShape(g: Game, g': Game, n: nat)
    requires Oriented(g, n) && g.a.phase.AwaitResult? && g.ba != [] && g.ba[0].Result?
    requires g' == Swap(NextA(g, Receive)) && g'.b.phase == Top
    requires Answered(g) && !Answered(g')
    ensures Shape(g') && PlayerOk(g'.a, n) && PlayerOk(g'.b, n) && !ResultPending(g')
  {
  }

  /** A step of the other side: it defends, or already attacks in the next turn. */
  lemma StepDefender(g: Game, n: nat, e: Event)
    requires Oriented(g, n) && EnabledA(Swap(g), e)
    ensures e.Receive? ==> !ReadsResult(g.b)
    ensures e.Receive? ==> Byte(g.ab[0]) == FORFEIT || 0 <= Byte(g.ab[0]) < |g.b.userGrid|
    ensures Inv(NextA(Swap(g), e), n)
  {
    match e {
      case Prompt(input) => NextPromptKeeps(g, n, input);
      case Receive =>
        if g.ab[0] == Forfeit {
          ForfeitWins(g, n);
        } else {
          AttackKeeps(g, n);
        }
      case Interrupt => InterruptKeeps(g, n);
    }
    assert Swap(Swap(NextA(Swap(g), e))) == NextA(Swap(g), e);
  }

  lemma NextPromptKeeps(g: Game, n: nat, input: int)
    requires Oriented(g, n) && EnabledA(Swap(g), Prompt(input))
    ensures Oriented(Swap(NextA(Swap(g), Prompt(input))), n)
  {
    var g' := Swap(NextA(Swap(g), Prompt(input)));
    assert Answered(g) && TurnB(g') == TurnB(g) && TurnA(g') == TurnA(g);
    assert g'.a == g.a && g'.b.userGrid == g.b.userGrid && g'.b.advGrid == g.b.advGrid;
  }

  lemma ForfeitWins(g: Game, n: nat)
    requires Oriented(g, n) && EnabledA(Swap(g), Receive) && g.ab[0] == Forfeit
    ensures Oriented(Swap(NextA(Swap(g), Receive)), n)
  {
  }

  lemma InterruptKeeps(g: Game, n: nat)
    requires Oriented(g, n) && EnabledA(Swap(g), Interrupt)
    ensures Oriented(Swap(NextA(Swap(g), Interrupt)), n)
  {
  }

  lemma AttackKeeps(g: Game, n: nat)
    requires Oriented(g, n) && EnabledA(Swap(g), Receive) && g.ab[0].Cell?
    ensures 0 <= Byte(g.ab[0]) < |g.b.userGrid| && ReadsAttack(g.b)
    ensures Oriented(Swap(NextA(Swap(g), Receive)), n)
  {
    var g' := Swap(NextA(Swap(g), Receive));
    AttackShape(g, g', n);
    AttackGrids(g, g', n);
  }

  lemma AttackGrids(g: Game, g': Game, n: nat)
    requires Oriented(g, n) && EnabledA(Swap(g), Receive) && g.ab[0].Cell?
    requires 0 <= g.ab[0].cell < |g.b.userGrid| && ReadsAttack(g.b)
    requires g' == Swap(NextA(Swap(g), Receive))
    requires PlayerOk(g'.a, n) && PlayerOk(g'.b, n) && Shape(g')
    requires ResultPending(g') && g'.ba == [Result(g.b.userGrid[g.ab[0].cell] == BOAT)]
    requires g'.b.phase == Done(Lost) <==> Boats(g'.b.userGrid) == 0
    ensures GridsAgree(g') && Counts(g')
  {
    var c := g.ab[0].cell;
    var v := if g.b.userGrid[c] == BOAT then SUNKEN_BOAT else MISSED_SHOT;
    assert g'.a == g.a && g'.b.advGrid == g.b.advGrid && g'.b.advBoats == g.b.advBoats;
    AttackHides(g, g'.b, c, v);
  }

  lemma AttackHides(g: Game, b: Player, c: nat, v: int)
    requires c < |g.b.userGrid| && v == if g.b.userGrid[c] == BOAT then SUNKEN_BOAT else MISSED_SHOT
    requires b.userGrid == g.b.userGrid[c := v]
    ensures Hidden(b.userGrid) == Hidden(g.b.userGrid)[c := v]
    ensures Boats(b.userGrid) == Boats(g.b.userGrid) - if g.b.userGrid[c] == BOAT then 1 else 0
  {
    MarkCounts(g.b.userGrid, c, v);
    HiddenUpdate(g.b.userGrid, c, v);
  }

  lemma AttackShape(g: Game, g': Game, n: nat)
    requires Oriented(g, n) && EnabledA(Swap(g), Receive) && g.ab[0].Cell?
    ensures 0 <= Byte(g.ab[0]) < |g.b.userGrid| && ReadsAttack(g.b)
    requires g' == Swap(NextA(Swap(g), Receive))
    ensures PlayerOk(g'.a, n) && PlayerOk(g'.b, n) && Shape(g')
    ensures ResultPending(g') && g'.ba == [Result(g.b.userGrid[g.ab[0].cell] == BOAT)]
    ensures g'.b.phase == Done(Lost) <==> Boats(g'.b.userGrid) == 0
  {
    var c := g.ab[0].cell;
    MarkCounts(g.b.userGrid, c, if g.b.userGrid[c] == BOAT then SUNKEN_BOAT else MISSED_SHOT);
  }

  // ----- runs -----

  /** In a step of a, the byte read is one the code can index a grid with. */
  ghost predicate ReadInRange(g: Game, e: Event)
    requires EnabledA(g, e)
  {
    e.Receive? ==>
      if ReadsResult(g.a) then g.a.phase.cell < |g.a.advGrid|
      else Byte(g.ba[0]) == FORFEIT || 0 <= Byte(g.ba[0]) < |g.a.userGrid|
  }

  ghost predicate Enabled(g: Game, byA: bool, e: Event) {
    EnabledA(if byA then g else Swap(g), e)
  }

  ghost predicate Steps(g: Game, byA: bool, e: Event, g': Game) {
    && Enabled(g, byA, e)
    && ReadInRange(if byA then g else Swap(g), e)
    && g' == if byA then NextA(g, e) else Swap(NextA(Swap(g), e))
  }

  datatype Step = Step(byA: bool, event: Event)

  ghost predicate Run(states: seq<Game>, steps: seq<Step>, n: nat, k: nat) {
    && |states| == |steps| + 1
    && Initial(states[0], n, k)
    && forall i {:trigger Steps(states[i], steps[i].byA, steps[i].event, states[i + 1])} ::
         0 <= i < |steps| ==> Steps(states[i], steps[i].byA, steps[i].event, states[i + 1])
  }

  lemma InvSwap(g: Game, n: nat)
    requires Inv(g, n)
    ensures Inv(Swap(g), n)
  {
    assert Swap(Swap(g)) == g;
  }

  /** In a state that keeps the invariant, every byte that may be read may be used as an index, and
      the invariant is kept. */
  lemma StepKeepsInv(g: Game, n: nat, byA: bool, e: Event)
    requires Inv(g, n) && Enabled(g, byA, e)
    ensures ReadInRange(if byA then g else Swap(g), e)
    ensures forall g' :: Steps(g, byA, e, g') ==> Inv(g', n)
  {
    var h := if byA then g else Swap(g);
    assert Swap(Swap(h)) == h && Swap(Swap(g)) == g;
    if Oriented(h, n) {
      StepAttacker(h, n, e);
    } else {
      StepDefender(Swap(h), n, e);
    }
    InvSwap(NextA(h, e), n);
  }

  lemma StepInv(g: Game, n: nat, st: Step, g': Game)
    requires Inv(g, n) && Steps(g, st.byA, st.event, g')
    ensures Inv(g', n)
  {
    StepKeepsInv(g, n, st.byA, st.event);
  }

  lemma RunLink(states: seq<Game>, steps: seq<Step>, n: nat, k: nat, i: nat)
    requires Run(states, steps, n, k) && i < |steps|
    ensures Steps(states[i], steps[i].byA, steps[i].event, states[i + 1])
  {
  }

  lemma RunStart(states: seq<Game>, steps: seq<Step>, n: nat, k: nat)
    requires Run(states, steps, n, k)
    ensures Inv(states[0], n)
  {
    InitialInv(states[0], n, k);
  }

  lemma {:induction false} ReachableInv(states: seq<Game>, steps: seq<Step>, n: nat, k: nat, i: nat)
    requires Run(states, steps, n, k) && i < |states|
    ensures Inv(states[i], n)
    decreases i
  {
    if i == 0 {
      RunStart(states, steps, n, k);
    } else {
      ReachableInv(states, steps, n, k, i - 1);
      RunLink(states, steps, n, k, i - 1);
      StepInv(states[i - 1], n, steps[i - 1], states[i]);
    }
  }

  /** A state of some run of a game of n cells with k boats. */
  ghost predicate Reachable(g: Game, n: nat, k: nat) {
    exists states, steps, i: nat :: Run(states, steps, n, k) && i < |states| && states[i] == g
  }

  lemma ReachedInv(g: Game, n: nat, k: nat)
    requires Reachable(g, n, k)
    ensures Inv(g, n)
  {
    var states: seq<Game>, steps: seq<Step>, i: nat :| Run(states, steps, n, k) && i < |states| && states[i] == g;
    ReachableInv(states, steps, n, k, i);
  }

  // ----- what holds in every reachable state -----

  lemma SwapSteps(g: Game, byA: bool, e: Event, g': Game)
    requires Steps(g, byA, e, g')
    ensures Steps(Swap(g), !byA, e, Swap(g'))
  {
  }

  /** The two processes run the same code: what is proved below of a and b holds of b and a. */
  lemma ReachableSwap(g: Game, n: nat, k: nat)
    requires Reachable(g, n, k)
    ensures Reachable(Swap(g), n, k)
  {
    var states: seq<Game>, steps: seq<Step>, i: nat :| Run(states, steps, n, k) && i < |states| && states[i] == g;
    var states' := seq(|states|, j requires 0 <= j < |states| => Swap(states[j]));
    var steps' := seq(|steps|, j requires 0 <= j < |steps| => Step(!steps[j].byA, steps[j].event));
    forall j | 0 <= j < |steps'|
      ensures Steps(states'[j], steps'[j].byA, steps'[j].event, states'[j + 1])
    {
      RunLink(states, steps, n, k, j);
      SwapSteps(states[j], steps[j].byA, steps[j].event, states[j + 1]);
    }
    assert Run(states', steps', n, k) && states'[i] == Swap(g);
  }

  lemma FirstByte(g: Game, n: nat)
    requires Inv(g, n) && g.ba != []
    ensures ReadsResult(g.a) ==> g.ba[0].Result? || g.ba[0].Forfeit?
    ensures ReadsAttack(g.a) && !g.ba[0].Forfeit? ==>
              && g.ba[0].Cell? && 0 <= g.ba[0].cell < n && g.ba[0].cell != FORFEIT
              && |g.a.userGrid| == n
              && (g.a.userGrid[g.ba[0].cell] == BOAT || g.a.userGrid[g.ba[0].cell] == DEFAULT)
  {
    if !Oriented(g, n) && ReadsAttack(g.a) && g.ba[0].Cell? {
      var c := g.ba[0].cell;
      assert g.b.advGrid[c] == DEFAULT;
      assert Hidden(g.a.userGrid)[c] == DEFAULT;
    }
  }

  /** A process that waits for a result finds a result or a forfeit, never a cell; one that waits for
      an attack finds a forfeit or a cell, never a result, and that cell was not attacked before. */
  lemma NeverMisread(g: Game, n: nat, k: nat)
    requires Reachable(g, n, k) && g.ba != []
    ensures ReadsResult(g.a) ==> g.ba[0].Result? || g.ba[0].Forfeit?
    ensures ReadsAttack(g.a) && !g.ba[0].Forfeit? ==>
              && g.ba[0].Cell? && 0 <= g.ba[0].cell < n && g.ba[0].cell != FORFEIT
              && |g.a.userGrid| == n
              && (g.a.userGrid[g.ba[0].cell] == BOAT || g.a.userGrid[g.ba[0].cell] == DEFAULT)
  {
    ReachedInv(g, n, k);
    FirstByte(g, n);
  }

  /** At most two bytes are in flight one way; two are a result and what its sender sent next. */
  lemma ChannelShapes(g: Game, n: nat, k: nat)
    requires Reachable(g, n, k)
    ensures |g.ba| <= 2
    ensures |g.ba| == 2 ==>
              g.ba[0].Result? && !g.ba[1].Result? && g.ab == [] && ReadsResult(g.a)
    ensures |g.ba| == 1 && g.ba[0].Result? ==> g.ab == [] && ReadsResult(g.a)
  {
    ReachedInv(g, n, k);
  }

  /** Unless a result is on its way, a player's map of the opponent is the opponent's grid with the
      unhit boats hidden, and it counts the boats left there. */
  lemma MapsAgree(g: Game, n: nat, k: nat)
    requires Reachable(g, n, k)
    requires g.ba == [] || !g.ba[0].Result?
    ensures g.a.advGrid == Hidden(g.b.userGrid) && g.a.advBoats == Boats(g.b.userGrid)
    ensures g.a.userBoats == Boats(g.a.userGrid) && g.b.userBoats == Boats(g.b.userGrid)
  {
    ReachedInv(g, n, k);
  }

  /** With its result on the way, the map agrees once that result is entered. */
  lemma MapsAgreeAfterResult(g: Game, n: nat, k: nat)
    requires Reachable(g, n, k) && g.ba != [] && g.ba[0].Result?
    ensures g.a.phase.AwaitResult? && g.a.phase.cell < |g.a.advGrid| && g.a.advGrid[g.a.phase.cell] == DEFAULT
    ensures GotResult(g.a, Byte(g.ba[0])).advGrid == Hidden(g.b.userGrid)
    ensures GotResult(g.a, Byte(g.ba[0])).advBoats == Boats(g.b.userGrid)
  {
    ReachedInv(g, n, k);
  }

  lemma FreeCell(g: Game, n: nat)
    requires Inv(g, n) && g.a.phase.Top? && Attacking(g.a)
    ensures exists c: nat :: c < |g.a.advGrid| && g.a.advGrid[c] == DEFAULT
  {
    var o := if Oriented(g, n) then g else Swap(g);
    MarksLeaveBoats(g.a.advGrid, g.b.userGrid);
    assert Oriented(o, n);
  }

  /** A player who has to attack always has a cell left to attack. */
  lemma CellLeft(g: Game, n: nat, k: nat)
    requires Reachable(g, n, k) && g.a.phase.Top? && Attacking(g.a)
    ensures exists c: nat :: c < |g.a.advGrid| && g.a.advGrid[c] == DEFAULT
  {
    ReachedInv(g, n, k);
    FreeCell(g, n);
  }

  predicate NobodyForfeited(g: Game) {
    g.a.phase != Done(ForfeitLost) && g.b.phase != Done(ForfeitLost)
  }

  predicate ForfeitEvent(e: Event) {
    e == Prompt(FORFEIT) || e == Interrupt
  }

  ghost predicate CanGoOn(g: Game) {
    exists byA, e, g' :: Steps(g, byA, e, g') && !ForfeitEvent(e) && g' != g
  }

  lemma InvGoesOn(g: Game, n: nat)
    requires Inv(g, n)
    requires !g.a.phase.Done? || !g.b.phase.Done?
    requires g.a.phase != Done(ForfeitLost) && g.b.phase != Done(ForfeitLost)
    ensures CanGoOn(g)
  {
    if Oriented(g, n) {
      var byA, e, g' := OrientedGoesOn(g, n);
    } else {
      var byA, e, g' := OrientedGoesOn(Swap(g), n);
      SwapSteps(Swap(g), byA, e, g');
      assert Swap(Swap(g)) == g && Swap(Swap(g')) == g';
      assert Steps(g, !byA, e, Swap(g')) && Swap(g') != g;
    }
  }

  /** No deadlock: while a player is still in the game and nobody has forfeited, someone can move
      without forfeiting, and really moves. */
  lemma NoDeadlock(g: Game, n: nat, k: nat)
    requires Reachable(g, n, k)
    requires !g.a.phase.Done? || !g.b.phase.Done?
    requires NobodyForfeited(g)
    ensures CanGoOn(g)
  {
    ReachedInv(g, n, k);
    InvGoesOn(g, n);
  }

  lemma OrientedGoesOn(g: Game, n: nat) returns (byA: bool, e: Event, g': Game)
    requires Oriented(g, n)
    requires !g.a.phase.Done? || !g.b.phase.Done?
    requires g.a.phase != Done(ForfeitLost) && g.b.phase != Done(ForfeitLost)
    ensures Steps(g, byA, e, g') && !ForfeitEvent(e) && g' != g
  {
    if g.a.phase.Top? {
      FreeCell(g, n);
      var c: nat :| c < |g.a.advGrid| && g.a.advGrid[c] == DEFAULT;
      byA, e, g' := true, Prompt(c), NextA(g, Prompt(c));
    } else if g.ba != [] {
      g' := AttackerReads(g, n);
      byA, e := true, Receive;
    } else {
      g' := DefenderReads(g, n);
      byA, e := false, Receive;
    }
  }

  lemma AttackerReads(g: Game, n: nat) returns (g': Game)
    requires Oriented(g, n) && !g.a.phase.Top? && g.ba != [] && g.a.phase != Done(ForfeitLost)
    ensures Steps(g, true, Receive, g') && g' != g
  {
    StepAttacker(g, n, Receive);
    g' := NextA(g, Receive);
    assert |g'.ba| < |g.ba|;
  }

  lemma DefenderReads(g: Game, n: nat) returns (g': Game)
    requires Oriented(g, n) && !g.a.phase.Top? && g.ba == []
    requires g.a.phase != Done(ForfeitLost) && g.b.phase != Done(ForfeitLost)
    requires !g.a.phase.Done? || !g.b.phase.Done?
    ensures Steps(g, false, Receive, g') && g' != g
  {
    assert g.a.phase.AwaitResult? && g.ab == [Cell(g.a.phase.cell)];
    StepDefender(g, n, Receive);
    g' := Swap(NextA(Swap(g), Receive));
    assert |g'.ab| < |g.ab|;
  }

  /** A forfeit in flight ends the game of whoever reads it: with a player gone, the other one always
      has something to read or to send. */
  lemma ForfeitReachesOpponent(g: Game, n: nat, k: nat)
    requires Reachable(g, n, k) && g.a.phase == Done(ForfeitLost) && !g.b.phase.Done?
    ensures Forfeit in g.ab
    ensures Enabled(g, false, Receive) || (g.b.phase.Top? && Attacking(g.b))
  {
    ReachedInv(g, n, k);
    if Oriented(g, n) {
      assert g.ab[0] == Forfeit;
    } else if |g.ab| == 2 {
      assert g.ab[1] == Forfeit;
    } else {
      assert g.ab[0] == Forfeit;
    }
  }

  predicate Wins(p: Player) { p.phase == Done(Won) || p.phase == Done(ForfeitWon) }

  /** At most one side wins; a side is told that its opponent forfeited only if it did; and a game in
      which nobody forfeited ends with one side winning and the other losing. */
  lemma Outcomes(g: Game, n: nat, k: nat)
    requires Reachable(g, n, k)
    ensures !(Wins(g.a) && Wins(g.b))
    ensures g.a.phase == Done(ForfeitWon) ==> g.b.phase == Done(ForfeitLost)
    ensures g.a.phase == Done(Won) ==> g.b.phase == Done(Lost) && Boats(g.b.userGrid) == 0
    ensures g.a.phase == Done(Lost) ==> Boats(g.a.userGrid) == 0 && (Wins(g.b) || g.b.phase.AwaitResult?)
    ensures g.a.phase.Done? && g.b.phase.Done?
            && g.a.phase != Done(ForfeitLost) && g.b.phase != Done(ForfeitLost) ==>
              (g.a.phase == Done(Won) && g.b.phase == Done(Lost))
              || (g.a.phase == Done(Lost) && g.b.phase == Done(Won))
  {
    ReachedInv(g, n, k);
    if Oriented(g, n) {
      OrientedOutcomes(g, n);
    } else {
      OrientedOutcomes(Swap(g), n);
    }
  }

  /** The ends that exist when a attacks in the oldest turn that is not over. */
  lemma OrientedOutcomes(g: Game, n: nat)
    requires Oriented(g, n)
    ensures Wins(g.a) ==> !Wins(g.b)
    ensures g.a.phase == Done(ForfeitWon) ==> g.b.phase == Done(ForfeitLost)
    ensures g.b.phase == Done(ForfeitWon) ==> g.a.phase == Done(ForfeitLost)
    ensures g.a.phase == Done(Won) ==> g.b.phase == Done(Lost)
    ensures g.a.phase != Done(Lost) && g.b.phase != Done(Won)
    ensures g.b.phase == Done(Lost) ==>
              Boats(g.b.userGrid) == 0 && (g.a.phase == Done(Won) || g.a.phase.AwaitResult?)
  {
  }

  lemma NoForfeitStep(g: Game, st: Step, g': Game)
    requires NobodyForfeited(g) && Steps(g, st.byA, st.event, g') && !ForfeitEvent(st.event)
    ensures NobodyForfeited(g')
  {
  }

  /** Nobody has forfeited as long as no step was a forfeit. */
  lemma {:induction false} NoForfeitRun(states: seq<Game>, steps: seq<Step>, n: nat, k: nat, i: nat)
    requires Run(states, steps, n, k) && i < |states|
    requires forall j :: 0 <= j < i ==> !ForfeitEvent(steps[j].event)
    ensures NobodyForfeited(states[i])
    decreases i
  {
    if i > 0 {
      NoForfeitRun(states, steps, n, k, i - 1);
      RunLink(states, steps, n, k, i - 1);
      NoForfeitStep(states[i - 1], steps[i - 1], states[i]);
    }
  }
}
