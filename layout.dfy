/**
 * Placement and payload of the board cards created by one sync pass. Cards
 * fill a column of fifteen from the top, then start the next column to the
 * right; every cell is 300 wide plus 10 of spacing and 100 tall plus 10.
 */
module Layout {
  import opened Records

  const MaxPerColumn: nat := 15
  const CardWidth: nat := 300
  const CardHeight: nat := 100
  const HorizontalSpacing: nat := 10
  const VerticalSpacing: nat := 10

  /** Width and height of one grid cell. */
  const CellWidth: nat := CardWidth + HorizontalSpacing
  const CellHeight: nat := CardHeight + VerticalSpacing

  datatype Position = Position(x: int, y: int)

  /** The position of the card created `idx`-th in a pass (from 0). */
  function CardPosition(idx: nat): (p: Position)
    ensures p.x >= 0 && p.x % CellWidth == 0
    ensures 0 <= p.y <= (MaxPerColumn - 1) * CellHeight && p.y % CellHeight == 0
    ensures idx < MaxPerColumn ==> p.x == 0
  {
    Position((idx / MaxPerColumn) * CellWidth, (idx % MaxPerColumn) * CellHeight)
  }

  /** The index a grid position belongs to: column times fifteen plus row. */
  function GridIndex(p: Position): int {
    (p.x / CellWidth) * MaxPerColumn + p.y / CellHeight
  }

  /** The position of every index leads back to that index. */
  lemma GridIndexInverts(idx: nat)
    ensures GridIndex(CardPosition(idx)) == idx
  {
    var col, row := idx / MaxPerColumn, idx % MaxPerColumn;
    assert (col * CellWidth) / CellWidth == col;
    assert (row * CellHeight) / CellHeight == row;
  }

  /** Distinct cards never share a position. */
  lemma CardPositionInjective(i: nat, j: nat)
    requires i != j
    ensures CardPosition(i) != CardPosition(j)
  {
    GridIndexInverts(i);
    GridIndexInverts(j);
  }

  /** The sixteenth card opens the second column, at the top. */
  lemma SecondColumnStarts()
    ensures CardPosition(MaxPerColumn) == Position(CellWidth, 0)
    ensures CardPosition(MaxPerColumn - 1) == Position(0, (MaxPerColumn - 1) * CellHeight)
  {
  }

  /** Fifteen cards later, a card sits in the same row of the next column. */
  lemma NextColumnSameRow(idx: nat)
    ensures CardPosition(idx + MaxPerColumn) ==
            Position(CardPosition(idx).x + CellWidth, CardPosition(idx).y)
  {
    assert (idx + MaxPerColumn) / MaxPerColumn == idx / MaxPerColumn + 1;
    assert (idx + MaxPerColumn) % MaxPerColumn == idx % MaxPerColumn;
  }

  /** The body of a card-creation request. */
  datatype CardPayload = CardPayload(
    title: string, description: string, cardTheme: Option<string>,
    position: Position, height: int, width: int)

  /** The request for the `idx`-th unsynced row: its content as title, its
      description, its assignee colour as theme, the grid position, and a
      fixed 300 by 100 geometry. */
  function BuildPayload(row: SyncRow, idx: nat): (p: CardPayload)
    ensures p.title == row.content && p.description == row.description
    ensures p.cardTheme == row.hexColor
    ensures p.position == CardPosition(idx)
    ensures p.width == CardWidth && p.height == CardHeight
  {
    CardPayload(row.content, row.description, row.hexColor, CardPosition(idx), CardHeight, CardWidth)
  }

  /** Two requests of one pass are never equal: their positions differ. */
  lemma PayloadsDistinct(r1: SyncRow, i: nat, r2: SyncRow, j: nat)
    requires i != j
    ensures BuildPayload(r1, i) != BuildPayload(r2, j)
  {
    CardPositionInjective(i, j);
  }
}
