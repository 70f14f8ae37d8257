/**
 * The vocabulary the chess board UI shares with its external rules engine
 * (chess.js): colours, piece kinds, square names, the engine's 8x8 board
 * matrix, its move records and its game-state predicates.
 */
module ChessTypes {

  datatype Option<+T> = None | Some(value: T)

  datatype Color = White | Black

  /** The side that is not `c`. */
  function Opponent(c: Color): (r: Color)
    ensures r != c
  {
    if c == White then Black else White
  }

  datatype Kind = King | Queen | Rook | Bishop | Knight | Pawn

  datatype Piece = Piece(kind: Kind, color: Color)

  /** A square name is a file letter 'a'..'h' followed by a rank digit '1'..'8'. */
  predicate IsSquareName(s: string) {
    |s| == 2 && 'a' <= s[0] <= 'h' && '1' <= s[1] <= '8'
  }

  /** One of the 64 square names, such as "e4"; nothing else can be built. */
  type Square = s: string | IsSquareName(s) witness "a1"

  /** File of a square: 0 for 'a' up to 7 for 'h'. */
  function FileOf(s: Square): (f: nat)
    ensures f < 8
  {
    s[0] as int - 'a' as int
  }

  /** Rank number of a square: 1 up to 8. */
  function RankOf(s: Square): (n: nat)
    ensures 1 <= n <= 8
  {
    s[1] as int - '0' as int
  }

  /** A square is determined by its file and its rank. */
  lemma SquareByCoordinates(s: Square, t: Square)
    requires FileOf(s) == FileOf(t) && RankOf(s) == RankOf(t)
    ensures s == t
  {
    assert s[0] == t[0] && s[1] == t[1];
  }

  /** The engine's board: eight rows of eight cells, each empty or holding a piece. */
  predicate IsMatrix(b: seq<seq<Option<Piece>>>) {
    |b| == 8 && forall i :: 0 <= i < |b| ==> |b[i]| == 8
  }

  type Matrix = b: seq<seq<Option<Piece>>> | IsMatrix(b)
    witness seq(8, _ => seq(8, _ => None))

  /** A move record as the engine reports it in its verbose history. */
  datatype Move = Move(
    color: Color,
    from: Square,
    to: Square,
    san: string,
    captured: Option<Kind>,
    promotion: Option<Kind>)

  /** What the UI hands to the engine to play a move. */
  datatype MoveRequest = MoveRequest(from: Square, to: Square, promotion: Option<Kind>)

  /** The engine's game-state predicates for one position. */
  datatype GameFlags = GameFlags(
    checkmate: bool,
    stalemate: bool,
    threefold: bool,
    insufficient: bool,
    draw: bool,
    inCheck: bool)

  /** No element occurs twice. */
  predicate Distinct<T(==)>(xs: seq<T>) {
    forall i, j :: 0 <= i < j < |xs| ==> xs[i] != xs[j]
  }

  /** A sequence without repetitions has as many distinct elements as entries. */
  lemma {:induction false} DistinctCardinality<T>(xs: seq<T>)
    requires Distinct(xs)
    ensures |set x | x in xs| == |xs|
  {
    if xs != [] {
      var rest := xs[1..];
      assert Distinct(rest) by {
        forall i, j | 0 <= i < j < |rest| ensures rest[i] != rest[j] {
          assert rest[i] == xs[i + 1] && rest[j] == xs[j + 1];
        }
      }
      DistinctCardinality(rest);
      assert (set x | x in xs) == {xs[0]} + (set x | x in rest);
      assert xs[0] !in (set x | x in rest) by {
        forall k | 0 <= k < |rest| ensures rest[k] != xs[0] {
          assert rest[k] == xs[k + 1];
        }
      }
    }
  }
}
