/** One process of the game, with its grids updated in place. */
module BattleshipPlayer {
  import opened Common
  import opened Battleship

  class PlayerProcess {
    const userGrid: array<int>
    const advGrid: array<int>
    var userBoats: int
    var advBoats: int
    var firstIter: nat
    /** where the process is blocked */
    var phase: Phase

    ghost predicate Valid() {
      userGrid != advGrid && userGrid.Length == advGrid.Length <= FORFEIT
    }

    ghost function View(): Player
      reads this, userGrid, advGrid
    {
      Player(userGrid[..], advGrid[..], userBoats, advBoats, firstIter, phase)
    }

    /** The start of the program, when the user's inputs place all the boats. */
    constructor (gridSize: nat, boatNum: nat, server: bool, inputs: seq<nat>)
      requires gridSize <= FORFEIT && (forall c :: c in inputs ==> c < gridSize)
      requires boatNum <= |Cells(inputs)|
      ensures Valid() && userGrid.Length == gridSize
      ensures fresh(userGrid) && fresh(advGrid)
      ensures Fresh(View(), gridSize, boatNum, server)
    {
      userGrid := new int[gridSize](_ => DEFAULT);
      advGrid := new int[gridSize](_ => DEFAULT);
      userBoats, advBoats := boatNum, boatNum;
      firstIter := if server then 1 else 0;
      phase := Top;
      new;
      var placed, used := PlaceBoatsOnGrid(userGrid, boatNum, inputs);
      assert used == |inputs| ==> inputs[..used] == inputs;
    }

    /** Attacker: the user's input, up to the receive. */
    method Prompt(usrInput: int) returns (sent: Option<Msg>)
      requires Valid() && (usrInput == FORFEIT || 0 <= usrInput < advGrid.Length)
      modifies this
      ensures (View(), sent) == Prompted(old(View()), usrInput)
      ensures View() == old(View()).(phase := phase)
      ensures usrInput == FORFEIT ==> phase == Done(ForfeitLost) && sent == Some(Forfeit)
      ensures usrInput != FORFEIT ==>
                if old(advGrid[usrInput]) == DEFAULT
                then phase == AwaitResult(usrInput) && sent == Some(Cell(usrInput))
                else phase == old(phase) && sent == None
    {
      if usrInput == FORFEIT {
        phase := Done(ForfeitLost);
        return Some(Forfeit);
      }
      if advGrid[usrInput] != DEFAULT {
        return None;
      }
      phase := AwaitResult(usrInput);
      return Some(Cell(usrInput));
    }

    /** Attacker: the byte that came back. */
    method ReceiveResult(data: int)
      requires Valid() && phase.AwaitResult? && phase.cell < advGrid.Length
      modifies this, advGrid
      ensures View() == GotResult(old(View()), data)
    {
      if data == FORFEIT {
        phase := Done(ForfeitWon);
        return;
      }
      if data == BOAT {
        advGrid[phase.cell] := SUNKEN_BOAT;
        advBoats := advBoats - 1;
      } else {
        advGrid[phase.cell] := MISSED_SHOT;
      }
      if advBoats == 0 {
        phase := Done(Won);
        return;
      }
      phase := Top;
      firstIter := firstIter + 1;
    }

    /** Defender: the opponent's choice, and the result sent back. */
    method ReceiveAttack(data: int) returns (sent: Option<Msg>)
      requires Valid() && (data == FORFEIT || 0 <= data < userGrid.Length)
      modifies this, userGrid
      ensures (View(), sent) == GotAttack(old(View()), data)
    {
      if data == FORFEIT {
        phase := Done(ForfeitWon);
        return None;
      }
      if userGrid[data] == BOAT {
        userGrid[data] := SUNKEN_BOAT;
        userBoats := userBoats - 1;
        sent := Some(Result(true));
      } else {
        userGrid[data] := MISSED_SHOT;
        sent := Some(Result(false));
      }
      if userBoats == 0 {
        phase := Done(Lost);
        return;
      }
      phase := Top;
      firstIter := firstIter + 1;
    }

    /** Defender: the receive is interrupted by the forfeit signal. */
    method Interrupt() returns (sent: Option<Msg>)
      modifies this
      ensures (View(), sent) == Interrupted(old(View()))
    {
      phase := Done(ForfeitLost);
      return Some(Forfeit);
    }
  }

  ghost function Cells(inputs: seq<nat>): set<nat> {
    set c | c in inputs
  }

  /** Boats go on the first `boatNum` different cells that the user enters; a cell that already holds
      a boat is asked again.  The loop waits on when the inputs run out. */
  method PlaceBoatsOnGrid(grid: array<int>, boatNum: nat, inputs: seq<nat>) returns (placed: nat, used: nat)
    requires forall i :: 0 <= i < grid.Length ==> grid[i] == DEFAULT
    requires forall c :: c in inputs ==> c < grid.Length
    modifies grid
    ensures used <= |inputs| && placed == |Cells(inputs[..used])| <= boatNum
    ensures placed == boatNum || used == |inputs|
    ensures forall i: nat :: i < grid.Length ==> grid[i] == if i in Cells(inputs[..used]) then BOAT else DEFAULT
    ensures Placed(grid[..], grid.Length, placed)
  {
    placed, used := 0, 0;
    AllDefault(grid[..]);
    NoBoats(grid[..]);
    while placed < boatNum && used < |inputs|
      invariant used <= |inputs| && placed == |Cells(inputs[..used])| <= boatNum
      invariant forall i: nat :: i < grid.Length ==>
                  grid[i] == if i in Cells(inputs[..used]) then BOAT else DEFAULT
      invariant Placed(grid[..], grid.Length, placed)
    {
      var cell := inputs[used];
      assert cell in inputs;
      ghost var before := grid[..];
      NextCell(inputs, used);
      if grid[cell] == DEFAULT {
        grid[cell] := BOAT;
        placed := placed + 1;
        MarkCounts(before, cell, BOAT);
        assert grid[..] == before[cell := BOAT];
      }
      used := used + 1;
    }
  }

  lemma NextCell(inputs: seq<nat>, used: nat)
    requires used < |inputs|
    ensures Cells(inputs[..used + 1]) == Cells(inputs[..used]) + {inputs[used]}
    ensures |Cells(inputs[..used + 1])| ==
            |Cells(inputs[..used])| + if inputs[used] in Cells(inputs[..used]) then 0 else 1
  {
  }

  lemma NoBoats(grid: Grid)
    requires forall i :: 0 <= i < |grid| ==> grid[i] == DEFAULT
    ensures Boats(grid) == 0
  {
    assert BOAT !in grid;
  }
}
