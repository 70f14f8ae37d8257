/**
 * Move-history panel (src/components/MoveHistory.tsx): the moves are grouped
 * into numbered rows, move `i` going to row `i / 2 + 1`, where it fills the
 * white or the black slot according to the colour of the side that made it.
 */
module MoveHistory {
  import opened ChessTypes

  datatype Row = Row(number: nat, white: Option<Move>, black: Option<Move>)

  /** The slot of colour `c` in a row. */
  function SlotOf(row: Row, c: Color): Option<Move> {
    if c == White then row.white else row.black
  }

  /**
   * What the slot of colour `c` in the `j`-th row ends up holding: of the two
   * moves numbered 2j and 2j+1, the later one made by `c`, if either was.
   */
  function Slot(moves: seq<Move>, j: nat, c: Color): Option<Move> {
    if 2 * j + 1 < |moves| && moves[2 * j + 1].color == c then Some(moves[2 * j + 1])
    else if 2 * j < |moves| && moves[2 * j].color == c then Some(moves[2 * j])
    else None
  }

  /** The `j`-th row as the panel should show it. */
  function ExpectedRow(moves: seq<Move>, j: nat): Row {
    Row(j + 1, Slot(moves, j, White), Slot(moves, j, Black))
  }

  /** All rows: one per pair of moves, the last one possibly half full. */
  function Grouped(moves: seq<Move>): seq<Row> {
    seq((|moves| + 1) / 2, j requires 0 <= j => ExpectedRow(moves, j))
  }

  /** Position of the first row numbered `number`, or -1 when there is none. */
  function FindRowIndex(rows: seq<Row>, number: nat): (k: int)
    ensures -1 <= k < |rows|
    ensures k == -1 <==> forall i :: 0 <= i < |rows| ==> rows[i].number != number
    ensures k >= 0 ==> rows[k].number == number && forall i :: 0 <= i < k ==> rows[i].number != number
  {
    if rows == [] then -1
    else if rows[0].number == number then 0
    else
      var k := FindRowIndex(rows[1..], number);
      assert forall i :: 1 <= i < |rows| ==> rows[i] == rows[1..][i - 1];
      if k == -1 then -1 else k + 1
  }

  /** Adding one move changes the expected rows only at the row of that move. */
  lemma GroupedStep(moves: seq<Move>, index: nat)
    requires index < |moves|
    ensures var before := Grouped(moves[..index]);
            var after := Grouped(moves[..index + 1]);
            && |after| == index / 2 + 1
            && (forall j :: 0 <= j < index / 2 ==> after[j] == before[j])
            && after[index / 2].number == index / 2 + 1
            && SlotOf(after[index / 2], moves[index].color) == Some(moves[index])
            && (index % 2 == 1 ==> SlotOf(after[index / 2], Opponent(moves[index].color))
                                   == SlotOf(before[index / 2], Opponent(moves[index].color)))
            && (index % 2 == 0 ==> |before| == index / 2
                                   && SlotOf(after[index / 2], Opponent(moves[index].color)) == None)
            && (index % 2 == 1 ==> |before| == index / 2 + 1)
  {
    var ps := moves[..index];
    var ms := moves[..index + 1];
    forall j | 0 <= j < index / 2 ensures ExpectedRow(ms, j) == ExpectedRow(ps, j) {
      assert ms[2 * j] == ps[2 * j] && ms[2 * j + 1] == ps[2 * j + 1];
    }
    if index % 2 == 1 {
      assert ms[index - 1] == ps[index - 1];
    }
  }

  /** The grouping loop of the panel. */
  method GroupRows(moves: seq<Move>) returns (rows: seq<Row>)
    ensures |rows| == (|moves| + 1) / 2
    ensures forall j :: 0 <= j < |rows| ==> rows[j].number == j + 1
    ensures rows == Grouped(moves)
  {
    var grouped: seq<Row> := [];
    var index := 0;
    while index < |moves|
      invariant 0 <= index <= |moves|
      invariant grouped == Grouped(moves[..index])
    {
      var moveNumber := index / 2 + 1;
      var move := moves[index];
      var rowIndex := FindRowIndex(grouped, moveNumber);
      GroupedStep(moves, index);
      assert index % 2 == 1 ==> grouped[index / 2].number == moveNumber;
      if rowIndex == -1 {
        var white := if move.color == White then Some(move) else None;
        var black := if move.color == Black then Some(move) else None;
        grouped := grouped + [Row(moveNumber, white, black)];
      } else {
        var entry := grouped[rowIndex];
        if move.color == White {
          entry := entry.(white := Some(move));
        } else {
          entry := entry.(black := Some(move));
        }
        grouped := grouped[rowIndex := entry];
      }
      index := index + 1;
    }
    assert moves[..index] == moves;
    rows := grouped;
  }

  /**
   * Move `i` is shown in the row numbered `i / 2 + 1`, in the slot of its
   * colour, unless the next move of the same row has the same colour and
   * overwrites it.
   */
  lemma MovePlacement(moves: seq<Move>, i: nat)
    requires i < |moves|
    requires i % 2 == 1 || i + 1 == |moves| || moves[i + 1].color != moves[i].color
    ensures var rows := Grouped(moves);
            i / 2 < |rows| && rows[i / 2].number == i / 2 + 1
            && SlotOf(rows[i / 2], moves[i].color) == Some(moves[i])
  {
    if i % 2 == 0 {
      assert 2 * (i / 2) == i;
    } else {
      assert 2 * (i / 2) + 1 == i;
    }
  }

  /** A slot only ever holds one of the two moves of its own row, made by its colour. */
  lemma SlotFromOwnPair(moves: seq<Move>, j: nat, c: Color)
    requires j < |Grouped(moves)|
    ensures SlotOf(Grouped(moves)[j], c).Some? ==>
              exists k :: 2 * j <= k < 2 * j + 2 && k < |moves|
                          && SlotOf(Grouped(moves)[j], c) == Some(moves[k]) && moves[k].color == c
  {
  }

  /** Colours alternate, White first, as in every game from the starting position. */
  predicate Alternating(moves: seq<Move>) {
    forall i :: 0 <= i < |moves| ==> moves[i].color == (if i % 2 == 0 then White else Black)
  }

  /**
   * With alternating colours, row r (numbered r + 1) holds move 2r as White's
   * and move 2r + 1 as Black's, the latter missing only in a last, half-played row.
   */
  lemma AlternatingRows(moves: seq<Move>, r: nat)
    requires Alternating(moves)
    requires r < |Grouped(moves)|
    ensures Grouped(moves)[r].white == Some(moves[2 * r])
    ensures 2 * r + 1 < |moves| ==> Grouped(moves)[r].black == Some(moves[2 * r + 1])
    ensures 2 * r + 1 == |moves| ==> Grouped(moves)[r].black == None
  {
    assert (2 * r) % 2 == 0 && (2 * r + 1) % 2 == 1;
  }

  /** What the panel renders. */
  datatype Panel = NoMovesYet | Table(rows: seq<Row>)

  /** The panel shows the placeholder exactly when no move has been played. */
  method RenderHistory(moves: seq<Move>) returns (panel: Panel)
    ensures panel == NoMovesYet <==> moves == []
    ensures panel.Table? ==> panel.rows == Grouped(moves) && |panel.rows| > 0
  {
    var rows := GroupRows(moves);
    if |rows| == 0 {
      panel := NoMovesYet;
    } else {
      panel := Table(rows);
    }
  }
}
