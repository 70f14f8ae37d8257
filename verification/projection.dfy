/**
 * Board-state projection of the page (src/app/page.tsx): the engine's 8x8
 * matrix, whose row 0 is rank 8 and whose column 0 is file a, is turned into
 * a map from each of the 64 square names to the piece on it, if any.
 */
module Projection {
  import opened ChessTypes

  /** File letters in matrix column order. */
  const Files: string := "abcdefgh"

  /** Rank digits in matrix row order: row 0 is the eighth rank. */
  const Ranks: string := "87654321"

  type SquareMap = map<Square, Option<Piece>>

  lemma FileLetter(f: nat)
    requires f < 8
    ensures |Files| == 8 && Files[f] as int == 'a' as int + f
  {
  }

  lemma RankDigit(r: nat)
    requires r < 8
    ensures |Ranks| == 8 && Ranks[r] as int == '8' as int - r
  {
  }

  /** The square at column `fileIndex` and row `rankIndex` of the engine matrix. */
  function ToSquare(fileIndex: nat, rankIndex: nat): (s: Square)
    requires fileIndex < 8 && rankIndex < 8
    ensures FileOf(s) == fileIndex
    ensures RankOf(s) == 8 - rankIndex
  {
    FileLetter(fileIndex);
    RankDigit(rankIndex);
    [Files[fileIndex], Ranks[rankIndex]]
  }

  /** Matrix row that holds a square: rank 8 is row 0, rank 1 is row 7. */
  function RankIndexOf(s: Square): (r: nat)
    ensures r < 8
  {
    8 - RankOf(s)
  }

  /** Every square is named by exactly one matrix position. */
  lemma ToSquareBijective(s: Square, f: nat, r: nat)
    requires f < 8 && r < 8
    ensures ToSquare(f, r) == s <==> f == FileOf(s) && r == RankIndexOf(s)
  {
    if f == FileOf(s) && r == RankIndexOf(s) {
      SquareByCoordinates(ToSquare(f, r), s);
    }
  }

  /** The 64 squares, as the nested loop over the matrix names them. */
  const AllSquares: set<Square> := set f: nat, r: nat | f < 8 && r < 8 :: ToSquare(f, r)

  lemma EverySquareListed(s: Square)
    ensures s in AllSquares
  {
    ToSquareBijective(s, FileOf(s), RankIndexOf(s));
  }

  /** The piece description kept in the map: kind and colour of the engine's piece. */
  function CopyCell(cell: Option<Piece>): (r: Option<Piece>)
    ensures r == cell
  {
    match cell
    case None => None
    case Some(p) => Some(Piece(p.kind, p.color))
  }

  /** Contents of the matrix cell that holds square `s`. */
  function CellAt(board: Matrix, s: Square): Option<Piece> {
    CopyCell(board[RankIndexOf(s)][FileOf(s)])
  }

  /** The projection as a whole: every square maps to a verbatim copy of its cell. */
  function SquareMapOf(board: Matrix): (m: SquareMap)
    ensures forall s: Square :: s in m
    ensures forall f: nat, r: nat | f < 8 && r < 8 :: m[ToSquare(f, r)] == board[r][f]
  {
    forall s: Square ensures s in AllSquares {
      EverySquareListed(s);
    }
    map s | s in AllSquares :: CellAt(board, s)
  }

  /** The nested loop of the page: rows outside, columns inside. */
  method CreateSquareMap(board: Matrix) returns (m: SquareMap)
    ensures forall s: Square :: s in m
    ensures forall f: nat, r: nat | f < 8 && r < 8 :: m[ToSquare(f, r)] == board[r][f]
    ensures m == SquareMapOf(board)
  {
    m := map[];
    var rankIndex := 0;
    while rankIndex < 8
      invariant 0 <= rankIndex <= 8
      invariant forall s: Square :: s in m <==> RankIndexOf(s) < rankIndex
      invariant forall s: Square :: s in m ==> m[s] == board[RankIndexOf(s)][FileOf(s)]
    {
      var fileIndex := 0;
      while fileIndex < 8
        invariant 0 <= fileIndex <= 8
        invariant forall s: Square :: s in m <==>
          RankIndexOf(s) < rankIndex || (RankIndexOf(s) == rankIndex && FileOf(s) < fileIndex)
        invariant forall s: Square :: s in m ==> m[s] == board[RankIndexOf(s)][FileOf(s)]
      {
        var square := ToSquare(fileIndex, rankIndex);
        var piece := board[rankIndex][fileIndex];
        m := m[square := CopyCell(piece)];
        forall s: Square ensures s == square <==> FileOf(s) == fileIndex && RankIndexOf(s) == rankIndex {
          ToSquareBijective(s, fileIndex, rankIndex);
        }
        fileIndex := fileIndex + 1;
      }
      rankIndex := rankIndex + 1;
    }
    forall s: Square ensures m[s] == SquareMapOf(board)[s] {
      EverySquareListed(s);
    }
  }

  /** The cells of the matrix read row by row. */
  function Flatten(rows: seq<seq<Option<Piece>>>): seq<Option<Piece>> {
    if rows == [] then [] else rows[0] + Flatten(rows[1..])
  }

  /** Number of occupied cells. */
  function CountPieces(cells: seq<Option<Piece>>): nat {
    if cells == [] then 0 else (if cells[0].Some? then 1 else 0) + CountPieces(cells[1..])
  }

  /** Squares that hold a piece in a projected map. */
  function Occupied(m: SquareMap): set<Square> {
    set s | s in m && m[s].Some?
  }

  /** The squares in the order the page's loop visits them. */
  function RowMajorSquares(): (q: seq<Square>)
    ensures |q| == 64
  {
    seq(64, k requires 0 <= k < 64 => ToSquare(k % 8, k / 8))
  }

  lemma {:induction false} FlattenIndex(rows: seq<seq<Option<Piece>>>, k: nat)
    requires forall i :: 0 <= i < |rows| ==> |rows[i]| == 8
    requires k < 8 * |rows|
    ensures |Flatten(rows)| == 8 * |rows|
    ensures Flatten(rows)[k] == rows[k / 8][k % 8]
  {
    if k < 8 {
      FlattenLength(rows[1..]);
    } else {
      FlattenIndex(rows[1..], k - 8);
      assert (k - 8) / 8 == k / 8 - 1 && (k - 8) % 8 == k % 8;
    }
  }

  lemma {:induction false} FlattenLength(rows: seq<seq<Option<Piece>>>)
    requires forall i :: 0 <= i < |rows| ==> |rows[i]| == 8
    ensures |Flatten(rows)| == 8 * |rows|
  {
    if rows != [] {
      FlattenLength(rows[1..]);
    }
  }

  lemma RowMajorDistinct()
    ensures Distinct(RowMajorSquares())
  {
    var q := RowMajorSquares();
    forall i, j | 0 <= i < j < 64 ensures q[i] != q[j] {
      assert i == 8 * (i / 8) + i % 8;
      assert j == 8 * (j / 8) + j % 8;
      ToSquareBijective(q[j], i % 8, i / 8);
    }
  }

  /** The entries of `m` at the squares of `xs`, in order. */
  function Lookup(m: SquareMap, xs: seq<Square>): (cells: seq<Option<Piece>>)
    requires forall k :: 0 <= k < |xs| ==> xs[k] in m
  {
    if xs == [] then [] else [m[xs[0]]] + Lookup(m, xs[1..])
  }

  lemma {:induction false} LookupIndex(m: SquareMap, xs: seq<Square>, k: nat)
    requires forall i :: 0 <= i < |xs| ==> xs[i] in m
    requires k < |xs|
    ensures |Lookup(m, xs)| == |xs| && Lookup(m, xs)[k] == m[xs[k]]
  {
    if k > 0 {
      LookupIndex(m, xs[1..], k - 1);
    } else {
      if |xs| > 1 {
        LookupIndex(m, xs[1..], 0);
      }
    }
  }

  /** The occupied squares among `xs`. */
  function OccupiedAmong(m: SquareMap, xs: seq<Square>): set<Square> {
    set s | s in xs && s in m && m[s].Some?
  }

  /** Over distinct squares, counting occupied entries and collecting them agree. */
  lemma {:induction false} OccupiedCountAmong(m: SquareMap, xs: seq<Square>)
    requires forall i :: 0 <= i < |xs| ==> xs[i] in m
    requires Distinct(xs)
    ensures |OccupiedAmong(m, xs)| == CountPieces(Lookup(m, xs))
  {
    if xs != [] {
      var rest := xs[1..];
      assert Distinct(rest) by {
        forall i, j | 0 <= i < j < |rest| ensures rest[i] != rest[j] {
          assert rest[i] == xs[i + 1] && rest[j] == xs[j + 1];
        }
      }
      OccupiedCountAmong(m, rest);
      var tail := OccupiedAmong(m, rest);
      assert xs[0] !in tail by {
        forall k | 0 <= k < |rest| ensures rest[k] != xs[0] {
          assert rest[k] == xs[k + 1];
        }
      }
      assert xs == [xs[0]] + rest;
      assert Lookup(m, xs)[0] == m[xs[0]];
      assert Lookup(m, xs)[1..] == Lookup(m, rest);
      var all := OccupiedAmong(m, xs);
      if m[xs[0]].Some? {
        assert all == {xs[0]} + tail;
        assert |all| == |tail| + 1;
        assert CountPieces(Lookup(m, xs)) == 1 + CountPieces(Lookup(m, rest));
      } else {
        assert all == tail;
        assert CountPieces(Lookup(m, xs)) == CountPieces(Lookup(m, rest));
      }
    }
  }

  /** Each square sits in the row-major walk at position 8 * row + column. */
  lemma RowMajorPosition(s: Square)
    ensures var k := 8 * RankIndexOf(s) + FileOf(s); k < 64 && RowMajorSquares()[k] == s
  {
    var k := 8 * RankIndexOf(s) + FileOf(s);
    assert k % 8 == FileOf(s) && k / 8 == RankIndexOf(s);
    ToSquareBijective(s, k % 8, k / 8);
  }

  /** Reading the projection along the walk gives the flattened matrix. */
  lemma LookupIsFlatten(board: Matrix)
    ensures Lookup(SquareMapOf(board), RowMajorSquares()) == Flatten(board)
  {
    var m := SquareMapOf(board);
    var q := RowMajorSquares();
    LookupIndex(m, q, 0);
    FlattenLength(board);
    forall k | 0 <= k < 64 ensures Lookup(m, q)[k] == Flatten(board)[k] {
      LookupIndex(m, q, k);
      FlattenIndex(board, k);
    }
  }

  /**
   * The number of occupied squares in the projection equals the number of
   * non-empty cells of the engine matrix.
   */
  lemma OccupiedCount(board: Matrix)
    ensures |Occupied(SquareMapOf(board))| == CountPieces(Flatten(board))
  {
    var m := SquareMapOf(board);
    var q := RowMajorSquares();
    RowMajorDistinct();
    OccupiedCountAmong(m, q);
    LookupIsFlatten(board);
    forall s: Square | s in m && m[s].Some? ensures s in q {
      RowMajorPosition(s);
    }
    assert Occupied(m) == OccupiedAmong(m, q);
  }

  /** There are 64 squares, each named once by the matrix walk. */
  lemma AllSquaresCount()
    ensures |AllSquares| == 64
  {
    var q := RowMajorSquares();
    RowMajorDistinct();
    DistinctCardinality(q);
    forall s: Square ensures s in AllSquares <==> s in q {
      EverySquareListed(s);
      RowMajorPosition(s);
    }
    assert AllSquares == set x | x in q;
  }
}
