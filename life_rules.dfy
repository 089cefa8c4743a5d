/**
 * Neighbour counting of the cell-decay Game of Life
 * (CellDecayGameOfLife/src/swen221/lab2/util/CellDecayAbstractRule.java).
 * The board itself is not part of this model: a `BoardView` gives its width,
 * its height and the state of each cell (0 to 9, with 9 meaning dead).
 */
module CellDecayRule {
  import opened Wrappers

  const DEAD: int := 9

  datatype BoardView = BoardView(width: int, height: int, cellState: (int, int) -> int)

  /**
   * `getNumAlive`: 1 for a cell on the board that is not DEAD, 0 otherwise.
   * As written, both coordinates are checked against the board's WIDTH.
   */
  function NumAlive(x: int, y: int, board: BoardView): (r: nat)
    ensures r <= 1
    ensures r == 1 <==> 0 <= x < board.width && 0 <= y < board.width && board.cellState(x, y) != DEAD
  {
    if x < 0 || x >= board.width then 0
    else if y < 0 || y >= board.width then 0
    else if board.cellState(x, y) == DEAD then 0
    else 1
  }

  /** On a board taller than it is wide, a live cell in the rows below the width is never counted. */
  lemma RowsBelowWidthNeverCount(x: int, y: int, board: BoardView)
    requires 0 <= x < board.width <= y < board.height
    ensures NumAlive(x, y, board) == 0
  {
  }

  /** The cells (x + dx, y + dy) around (x, y): the eight offsets other than (0, 0). */
  predicate IsNeighbour(x: int, y: int, p: int, q: int)
  {
    -1 <= p - x <= 1 && -1 <= q - y <= 1 && (p, q) != (x, y)
  }

  /** The count `apply` builds: its eight `getNumAlive` terms, in the order it adds them. */
  function NeighbourCount(x: int, y: int, board: BoardView): (n: int)
    ensures 0 <= n <= 8
  {
    NumAlive(x - 1, y - 1, board) + NumAlive(x, y - 1, board) + NumAlive(x + 1, y - 1, board) +
    NumAlive(x - 1, y, board) + NumAlive(x + 1, y, board) +
    NumAlive(x - 1, y + 1, board) + NumAlive(x, y + 1, board) + NumAlive(x + 1, y + 1, board)
  }

  /**
   * The count depends on the eight neighbours and nothing else: boards of the
   * same width that agree on those cells give the same count, whatever they
   * hold at (x, y) or further away.
   */
  lemma CountDependsOnlyOnNeighbours(x: int, y: int, b1: BoardView, b2: BoardView)
    requires b1.width == b2.width
    requires forall p, q :: IsNeighbour(x, y, p, q) ==> b1.cellState(p, q) == b2.cellState(p, q)
    ensures NeighbourCount(x, y, b1) == NeighbourCount(x, y, b2)
  {
    assert IsNeighbour(x, y, x - 1, y - 1) && IsNeighbour(x, y, x, y - 1) && IsNeighbour(x, y, x + 1, y - 1);
    assert IsNeighbour(x, y, x - 1, y) && IsNeighbour(x, y, x + 1, y);
    assert IsNeighbour(x, y, x - 1, y + 1) && IsNeighbour(x, y, x, y + 1) && IsNeighbour(x, y, x + 1, y + 1);
  }

  /** In particular the cell itself is never inspected. */
  lemma CentreIsNotCounted(x: int, y: int, b1: BoardView, b2: BoardView)
    requires b1.width == b2.width
    requires forall p, q :: (p, q) != (x, y) ==> b1.cellState(p, q) == b2.cellState(p, q)
    ensures NeighbourCount(x, y, b1) == NeighbourCount(x, y, b2)
  {
    CountDependsOnlyOnNeighbours(x, y, b1, b2);
  }

  /** Each live neighbour adds one: a board whose neighbours of (x, y) are all on the board and alive counts 8. */
  lemma AllLiveNeighboursCountEight(x: int, y: int, board: BoardView)
    requires 1 <= x && x + 1 < board.width && 1 <= y && y + 1 < board.width
    requires forall p, q :: IsNeighbour(x, y, p, q) ==> board.cellState(p, q) != DEAD
    ensures NeighbourCount(x, y, board) == 8
  {
    assert IsNeighbour(x, y, x - 1, y - 1) && IsNeighbour(x, y, x, y - 1) && IsNeighbour(x, y, x + 1, y - 1);
    assert IsNeighbour(x, y, x - 1, y) && IsNeighbour(x, y, x + 1, y);
    assert IsNeighbour(x, y, x - 1, y + 1) && IsNeighbour(x, y, x, y + 1) && IsNeighbour(x, y, x + 1, y + 1);
  }

  /** Java's static field `boardView`, shared by every rule object. */
  class RuleStatics {
    var boardView: Option<BoardView>

    constructor ()
      ensures boardView == None
    {
      boardView := None;
    }
  }

  /**
   * `apply(x, y, board)`: records the board in the static field, adds up the
   * eight neighbours one at a time, and hands the count to the concrete rule's
   * `apply(x, y, neighbours)`, given here as `rule`.
   */
  method Apply(x: int, y: int, board: BoardView, statics: RuleStatics, rule: (int, int, int) -> int)
    returns (result: int)
    modifies statics
    ensures statics.boardView == Some(board)
    ensures result == rule(x, y, NeighbourCount(x, y, board))
  {
    var count := 0;
    statics.boardView := Some(board);
    count := count + NumAlive(x - 1, y - 1, board);
    count := count + NumAlive(x, y - 1, board);
    count := count + NumAlive(x + 1, y - 1, board);
    count := count + NumAlive(x - 1, y, board);
    count := count + NumAlive(x + 1, y, board);
    count := count + NumAlive(x - 1, y + 1, board);
    count := count + NumAlive(x, y + 1, board);
    count := count + NumAlive(x + 1, y + 1, board);
    result := rule(x, y, count);
  }
}

/**
 * Two of Conway's rules (CellDecayGameOfLife/src/swen221/lab2/rules/).
 * The numeric codes of ConwayAbstractRule are not part of this model; a
 * rule's answer is a `Verdict`.
 */
module ConwayRules {

  datatype Verdict = Alive | Dead | NotApplicable

  /** ConwaysUnderpopulationRule.apply: fewer than two neighbours means DEAD; otherwise the rule does not apply. */
  function Underpopulation(x: int, y: int, neighbours: int): (r: Verdict)
    ensures r == Dead <==> neighbours < 2
    ensures r == NotApplicable <==> neighbours >= 2
  {
    if neighbours < 2 then Dead else NotApplicable
  }

  /** ConwaysReproductionRule.apply: exactly three neighbours means ALIVE; otherwise the rule does not apply. */
  function Reproduction(x: int, y: int, neighbours: int): (r: Verdict)
    ensures r == Alive <==> neighbours == 3
    ensures r == NotApplicable <==> neighbours != 3
  {
    if neighbours == 3 then Alive else NotApplicable
  }

  /** Neither rule looks at the cell's position. */
  lemma RulesIgnorePosition(x1: int, y1: int, x2: int, y2: int, neighbours: int)
    ensures Underpopulation(x1, y1, neighbours) == Underpopulation(x2, y2, neighbours)
    ensures Reproduction(x1, y1, neighbours) == Reproduction(x2, y2, neighbours)
  {
  }

  /** If underpopulation applies at some count, it applies at every smaller count. */
  lemma UnderpopulationDownwardClosed(x: int, y: int, n: int, m: int)
    requires m <= n && Underpopulation(x, y, n) != NotApplicable
    ensures Underpopulation(x, y, m) != NotApplicable
  {
  }

  /** Reproduction applies at exactly one neighbour count. */
  lemma ReproductionAppliesAtOneCount(x: int, y: int)
    ensures Reproduction(x, y, 3) != NotApplicable
    ensures forall n :: Reproduction(x, y, n) != NotApplicable ==> n == 3
  {
  }
}
