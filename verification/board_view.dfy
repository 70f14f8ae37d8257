/**
 * The board component (src/components/ChessBoard.tsx): which square is drawn
 * at each display position for either orientation, the light/dark colouring,
 * the selected / legal-target / last-move highlights, and the right-button
 * event, together with how they agree with the page's state.
 */
module BoardView {
  import opened ChessTypes
  import Projection
  import Page

  /** File letters and rank digits as the component lists them. */
  const Files: string := "abcdefgh"
  const Ranks: string := "12345678"

  /** The characters of `s` in reverse order. */
  function Reverse(s: string): string {
    seq(|s|, i requires 0 <= i < |s| => s[|s| - 1 - i])
  }

  /** Ranks from top to bottom: 8 down to 1, or 1 up to 8 when flipped. */
  function RankOrder(flipped: bool): (q: string)
    ensures |q| == 8
    ensures forall i :: 0 <= i < 8 ==> q[i] as int == '0' as int + (if flipped then i + 1 else 8 - i)
  {
    assert forall i :: 0 <= i < 8 ==> Ranks[i] as int == '1' as int + i;
    if flipped then Ranks else Reverse(Ranks)
  }

  /** Files from left to right: a to h, or h to a when flipped. */
  function FileOrder(flipped: bool): (q: string)
    ensures |q| == 8
    ensures forall i :: 0 <= i < 8 ==> q[i] as int == 'a' as int + (if flipped then 7 - i else i)
  {
    assert forall i :: 0 <= i < 8 ==> Files[i] as int == 'a' as int + i;
    if flipped then Reverse(Files) else Files
  }

  /** The label of a file and a rank. */
  function SquareLabel(file: char, rank: char): (s: Square)
    requires 'a' <= file <= 'h' && '1' <= rank <= '8'
    ensures FileOf(s) == file as int - 'a' as int && RankOf(s) == rank as int - '0' as int
  {
    [file, rank]
  }

  /** The square drawn in display row `rankIndex` and display column `fileIndex`. */
  function DisplaySquare(flipped: bool, rankIndex: nat, fileIndex: nat): (s: Square)
    requires rankIndex < 8 && fileIndex < 8
    ensures RankOf(s) == (if flipped then rankIndex + 1 else 8 - rankIndex)
    ensures FileOf(s) == (if flipped then 7 - fileIndex else fileIndex)
  {
    SquareLabel(FileOrder(flipped)[fileIndex], RankOrder(flipped)[rankIndex])
  }

  /** Unflipped, the board is drawn in the engine matrix's own order. */
  lemma UnflippedIsMatrixOrder(rankIndex: nat, fileIndex: nat)
    requires rankIndex < 8 && fileIndex < 8
    ensures DisplaySquare(false, rankIndex, fileIndex) == Projection.ToSquare(fileIndex, rankIndex)
  {
    SquareByCoordinates(DisplaySquare(false, rankIndex, fileIndex), Projection.ToSquare(fileIndex, rankIndex));
  }

  /** Flipping turns the board half way round: both axes are reversed. */
  lemma FlipRotates(rankIndex: nat, fileIndex: nat)
    requires rankIndex < 8 && fileIndex < 8
    ensures DisplaySquare(true, rankIndex, fileIndex) == DisplaySquare(false, 7 - rankIndex, 7 - fileIndex)
  {
    SquareByCoordinates(DisplaySquare(true, rankIndex, fileIndex), DisplaySquare(false, 7 - rankIndex, 7 - fileIndex));
  }

  /** The squares in drawing order: rows outside, columns inside. */
  function DisplayOrder(flipped: bool): (q: seq<Square>)
    ensures |q| == 64
  {
    seq(64, k requires 0 <= k < 64 => DisplaySquare(flipped, k / 8, k % 8))
  }

  /** Each of the 64 squares is drawn exactly once, in either orientation. */
  lemma DisplayOrderIsPermutation(flipped: bool)
    ensures Distinct(DisplayOrder(flipped))
    ensures forall s: Square :: s in DisplayOrder(flipped)
  {
    var q := DisplayOrder(flipped);
    forall i, j | 0 <= i < j < 64 ensures q[i] != q[j] {
      assert i == 8 * (i / 8) + i % 8;
      assert j == 8 * (j / 8) + j % 8;
      assert FileOf(q[i]) != FileOf(q[j]) || RankOf(q[i]) != RankOf(q[j]);
    }
    forall s: Square ensures s in q {
      var r := if flipped then RankOf(s) - 1 else 8 - RankOf(s);
      var f := if flipped then 7 - FileOf(s) else FileOf(s);
      var k := 8 * r + f;
      assert k / 8 == r && k % 8 == f;
      SquareByCoordinates(q[k], s);
    }
  }

  /** Colouring rule of the component, on display indices. */
  predicate LightSquare(rankIndex: nat, fileIndex: nat) {
    (fileIndex + rankIndex) % 2 == 0
  }

  /** The colour a square has on a real board: h1 and a8 are light, a1 and h8 dark. */
  predicate IsLight(s: Square) {
    (FileOf(s) + RankOf(s)) % 2 == 0
  }

  /**
   * The colour drawn at a display position is the square's own colour, so it
   * does not depend on the orientation.
   */
  lemma ColourFollowsSquare(flipped: bool, rankIndex: nat, fileIndex: nat)
    requires rankIndex < 8 && fileIndex < 8
    ensures LightSquare(rankIndex, fileIndex) <==> IsLight(DisplaySquare(flipped, rankIndex, fileIndex))
  {
    var s := DisplaySquare(flipped, rankIndex, fileIndex);
    CoordinateParity(flipped, rankIndex, fileIndex, FileOf(s), RankOf(s));
  }

  /** Display indices and board coordinates have the same parity in either orientation. */
  lemma CoordinateParity(flipped: bool, rankIndex: nat, fileIndex: nat, file: nat, rank: nat)
    requires file == (if flipped then 7 - fileIndex else fileIndex)
    requires rank == (if flipped then rankIndex + 1 else 8 - rankIndex)
    ensures (fileIndex + rankIndex) % 2 == (file + rank) % 2
  {
    if flipped {
      SameParity(file + rank, fileIndex + rankIndex, 4 - fileIndex);
    } else {
      SameParity(file + rank, fileIndex + rankIndex, 4 - rankIndex);
    }
  }

  lemma SameParity(a: nat, b: nat, k: int)
    requires a == b + 2 * k
    ensures a % 2 == b % 2
  {
  }

  /** What the board component receives. */
  datatype BoardProps = BoardProps(
    squares: Projection.SquareMap,
    selected: Option<Square>,
    legalMoves: seq<Square>,
    lastMove: Option<Page.LastMove>,
    flipped: bool)

  /** What one drawn square shows. */
  datatype Cell = Cell(
    square: Square,
    piece: Option<Piece>,
    selected: bool,
    legalTarget: bool,
    lastMove: bool,
    light: bool)

  /** The square drawn at a display position and its highlights. */
  function RenderCell(p: BoardProps, rankIndex: nat, fileIndex: nat): (c: Cell)
    requires rankIndex < 8 && fileIndex < 8
    ensures c.square == DisplaySquare(p.flipped, rankIndex, fileIndex)
    ensures c.selected <==> p.selected == Some(c.square)
    ensures c.legalTarget <==> c.square in p.legalMoves
    ensures c.lastMove <==> p.lastMove.Some? && (p.lastMove.value.from == c.square || p.lastMove.value.to == c.square)
    ensures c.light <==> IsLight(c.square)
  {
    ColourFollowsSquare(p.flipped, rankIndex, fileIndex);
    var legalMoveSet := set t | t in p.legalMoves;
    var square := DisplaySquare(p.flipped, rankIndex, fileIndex);
    Cell(square,
         if square in p.squares then p.squares[square] else None,
         p.selected == Some(square),
         square in legalMoveSet,
         p.lastMove != None && (p.lastMove.value.from == square || p.lastMove.value.to == square),
         LightSquare(rankIndex, fileIndex))
  }

  /** The board the page draws from its state. */
  function PropsOf<P>(s: Page.State<P>): BoardProps {
    BoardProps(s.squares, s.selected, s.legalMoves, s.lastMove, s.flipped)
  }

  /**
   * On a synchronised page each drawn square shows the engine's piece for
   * that square, in either orientation.
   */
  lemma CellShowsEnginePiece<P>(e: Page.Engine<P>, s: Page.State<P>, rankIndex: nat, fileIndex: nat)
    requires Page.Derived(e, s)
    requires rankIndex < 8 && fileIndex < 8
    ensures var c := RenderCell(PropsOf(s), rankIndex, fileIndex);
            c.piece == e.board(s.game)[Projection.RankIndexOf(c.square)][FileOf(c.square)]
  {
    var c := RenderCell(PropsOf(s), rankIndex, fileIndex);
    var f := FileOf(c.square);
    var r := Projection.RankIndexOf(c.square);
    Projection.ToSquareBijective(c.square, f, r);
  }

  /** At most one drawn square is marked as selected. */
  lemma AtMostOneSelected(p: BoardProps, k1: nat, k2: nat)
    requires k1 < 64 && k2 < 64
    requires RenderCell(p, k1 / 8, k1 % 8).selected && RenderCell(p, k2 / 8, k2 % 8).selected
    ensures k1 == k2
  {
    var s1 := RenderCell(p, k1 / 8, k1 % 8).square;
    var s2 := RenderCell(p, k2 / 8, k2 % 8).square;
    assert s1 == s2;
    assert k1 / 8 == k2 / 8 && k1 % 8 == k2 % 8 by {
      assert FileOf(s1) == FileOf(s2) && RankOf(s1) == RankOf(s2);
    }
    assert k1 == 8 * (k1 / 8) + k1 % 8 && k2 == 8 * (k2 / 8) + k2 % 8;
  }

  /** With nothing selected, no square is marked as a destination. */
  lemma NoTargetsWithoutSelection<P>(e: Page.Engine<P>, s: Page.State<P>, rankIndex: nat, fileIndex: nat)
    requires Page.SelectionConsistent(e, s) && s.selected.None?
    requires rankIndex < 8 && fileIndex < 8
    ensures !RenderCell(PropsOf(s), rankIndex, fileIndex).legalTarget
  {
  }

  /**
   * With a consistent selection, a drawn square other than the
   * selected one is marked as a destination exactly when clicking it plays a move.
   */
  lemma TargetMarkIffClickPlays<P>(e: Page.Engine<P>, s: Page.State<P>, rankIndex: nat, fileIndex: nat)
    requires Page.SelectionConsistent(e, s) && s.selected.Some?
    requires rankIndex < 8 && fileIndex < 8
    requires s.selected != Some(DisplaySquare(s.flipped, rankIndex, fileIndex))
    ensures var c := RenderCell(PropsOf(s), rankIndex, fileIndex);
            c.legalTarget <==> Page.ClickRequest(e, s, c.square).Some?
  {
    var c := RenderCell(PropsOf(s), rankIndex, fileIndex);
    Page.ClickPlaysExactlyHighlighted(e, s, c.square);
  }

  /** The right-button event: the handler runs only when one was given. */
  function ContextMenu<P>(onSquareRightClick: Option<Page.State<P> -> Page.State<P>>, s: Page.State<P>): (r: Page.State<P>)
    ensures onSquareRightClick.None? ==> r == s
    ensures onSquareRightClick.Some? ==> r == onSquareRightClick.value(s)
  {
    match onSquareRightClick
    case None => s
    case Some(handler) => handler(s)
  }

  /**
   * Without a handler a right click changes nothing; with the page's handler
   * it clears the selection and keeps everything else.
   */
  lemma ContextMenuEffect<P>(e: Page.Engine<P>, s: Page.State<P>)
    ensures ContextMenu(None, s) == s
    ensures var r := ContextMenu(Some(Page.HandleRightClick), s);
            r.selected.None? && r.legalMoves == []
            && r.(selected := s.selected, legalMoves := s.legalMoves) == s
  {
  }
}
