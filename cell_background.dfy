/**
 * Background colour of one grid cell (lib/getCellBackground.ts): while the
 * game is starting, the active lucky cell is highlighted; otherwise the cell
 * takes the colour of the first user standing on it. Nullable inputs are
 * Options; a `None` result is the source's `undefined`.
 */
module CellBackground {
  import opened Wrappers
  import opened Coordinates
  import opened Users
  import opened Games
  import opened UserLookup

  /** Colour of the active lucky cell. */
  const LuckyCellColor: string := "#ec407a"

  /** The lucky-cell branch is taken: state Starting and both lucky inputs present. */
  predicate InLuckyBranch(state: Option<GameState>, luckyCells: Option<seq<Coordinate>>, luckyCellIndex: Option<int>)
  {
    state == Some(Starting) && luckyCells.Some? && luckyCellIndex.Some?
  }

  /** When the lucky-cell branch is taken, the index names an entry of the list. */
  predicate LuckyIndexInRange(state: Option<GameState>, luckyCells: Option<seq<Coordinate>>, luckyCellIndex: Option<int>)
  {
    InLuckyBranch(state, luckyCells, luckyCellIndex) ==>
      0 <= luckyCellIndex.value < |luckyCells.value|
  }

  /** The cell at (row, column) is the active lucky cell and the game is starting. */
  predicate LuckyOverride(row: int, column: int, state: Option<GameState>,
                          luckyCells: Option<seq<Coordinate>>, luckyCellIndex: Option<int>)
    requires LuckyIndexInRange(state, luckyCells, luckyCellIndex)
  {
    InLuckyBranch(state, luckyCells, luckyCellIndex) &&
    luckyCells.value[luckyCellIndex.value] == Coordinate(column, row)
  }

  function GetCellBackground(row: int, column: int, state: Option<GameState>,
                             luckyCells: Option<seq<Coordinate>>, luckyCellIndex: Option<int>,
                             users: Option<seq<User>>): (r: Option<string>)
    requires LuckyIndexInRange(state, luckyCells, luckyCellIndex)
    ensures LuckyOverride(row, column, state, luckyCells, luckyCellIndex) ==> r == Some(LuckyCellColor)
    ensures !LuckyOverride(row, column, state, luckyCells, luckyCellIndex) ==>
              (r.None? <==> users.None? || forall u :: u in users.value ==> u.location != Coordinate(column, row))
    ensures !LuckyOverride(row, column, state, luckyCells, luckyCellIndex) && r.Some? ==>
              exists u :: u in users.value && u.location == Coordinate(column, row) && u.color == r.value
  {
    var location := Coordinate(column, row);
    if InLuckyBranch(state, luckyCells, luckyCellIndex)
       && AreCoordinatesEqual(luckyCells.value[luckyCellIndex.value], location)
    then Some(LuckyCellColor)
    else if users.None? then None
    else match GetUserOnLocation(users.value, location)
      case None => None
      case Some(u) => Some(u.color)
  }

  /**
   * Without the override, the cell shows the colour of the earliest user in
   * the list standing on it.
   */
  lemma CellShowsFirstOccupant(row: int, column: int, state: Option<GameState>,
                               luckyCells: Option<seq<Coordinate>>, luckyCellIndex: Option<int>,
                               users: seq<User>, i: nat)
    requires LuckyIndexInRange(state, luckyCells, luckyCellIndex)
    requires !LuckyOverride(row, column, state, luckyCells, luckyCellIndex)
    requires i < |users| && users[i].location == Coordinate(column, row)
    requires forall j :: 0 <= j < i ==> users[j].location != Coordinate(column, row)
    ensures GetCellBackground(row, column, state, luckyCells, luckyCellIndex, Some(users)) == Some(users[i].color)
  {
    GetUserOnLocationIsEarliest(users, Coordinate(column, row), i);
  }

  /** Outside the Starting state the lucky-cell inputs have no effect. */
  lemma NotStartingIgnoresLuckyCells(row: int, column: int, state: Option<GameState>,
                                     luckyCells: Option<seq<Coordinate>>, luckyCellIndex: Option<int>,
                                     users: Option<seq<User>>)
    requires state != Some(Starting)
    ensures GetCellBackground(row, column, state, luckyCells, luckyCellIndex, users) ==
            GetCellBackground(row, column, state, None, None, users)
  {
  }

  /**
   * Only the lucky cell at the current index is highlighted: any other
   * entry of the plan colours like a cell with no lucky inputs at all.
   */
  lemma OnlyActiveLuckyCellHighlighted(row: int, column: int, luckyCells: seq<Coordinate>,
                                       luckyCellIndex: int, j: nat, users: Option<seq<User>>)
    requires 0 <= luckyCellIndex < |luckyCells| && j < |luckyCells|
    requires luckyCells[j] == Coordinate(column, row)
    requires luckyCells[luckyCellIndex] != luckyCells[j]
    ensures GetCellBackground(row, column, Some(Starting), Some(luckyCells), Some(luckyCellIndex), users) ==
            GetCellBackground(row, column, Some(Starting), None, None, users)
  {
  }

  /** The row is the y component and the column the x component of the lucky cell. */
  lemma LuckyCellAtItsRowAndColumn(luckyCells: seq<Coordinate>, luckyCellIndex: int, users: Option<seq<User>>)
    requires 0 <= luckyCellIndex < |luckyCells|
    ensures var c := luckyCells[luckyCellIndex];
            GetCellBackground(c.y, c.x, Some(Starting), Some(luckyCells), Some(luckyCellIndex), users) == Some(LuckyCellColor)
  {
  }
}
