/**
 * Capture tally of the page (src/app/page.tsx): the move history is split by
 * the colour of the moving side into two lists of captured piece kinds, in
 * the order the captures happened; moves that capture nothing are skipped.
 */
module Captures {
  import opened ChessTypes

  /** What move `m` adds to side `c`'s tally: its captured kind, if `c` made it and it captured. */
  function Contribution(m: Move, c: Color): seq<Kind> {
    if m.captured.Some? && m.color == c then [m.captured.value] else []
  }

  /** The kinds side `c` captured, oldest first. */
  function CapturedBy(moves: seq<Move>, c: Color): seq<Kind> {
    if moves == [] then [] else Contribution(moves[0], c) + CapturedBy(moves[1..], c)
  }

  /** Number of moves in the history that captured something. */
  function CaptureCount(moves: seq<Move>): nat {
    if moves == [] then 0 else (if moves[0].captured.Some? then 1 else 0) + CaptureCount(moves[1..])
  }

  /** A move played after a history only appends to the tally of its own side. */
  lemma {:induction false} CapturedByAppend(moves: seq<Move>, m: Move, c: Color)
    ensures CapturedBy(moves + [m], c) == CapturedBy(moves, c) + Contribution(m, c)
  {
    if moves == [] {
      assert [m][1..] == [];
    } else {
      assert (moves + [m])[1..] == moves[1..] + [m];
      CapturedByAppend(moves[1..], m, c);
    }
  }

  lemma {:induction false} CaptureCountAppend(moves: seq<Move>, m: Move)
    ensures CaptureCount(moves + [m]) == CaptureCount(moves) + (if m.captured.Some? then 1 else 0)
  {
    if moves == [] {
      assert [m][1..] == [];
    } else {
      assert (moves + [m])[1..] == moves[1..] + [m];
      CaptureCountAppend(moves[1..], m);
    }
  }

  /** The loop of the page: one pass over the history, pushing onto one of two lists. */
  method CollectCaptures(moves: seq<Move>) returns (whiteCaptures: seq<Kind>, blackCaptures: seq<Kind>)
    ensures whiteCaptures == CapturedBy(moves, White)
    ensures blackCaptures == CapturedBy(moves, Black)
    ensures |whiteCaptures| + |blackCaptures| == CaptureCount(moves)
  {
    whiteCaptures := [];
    blackCaptures := [];
    var i := 0;
    while i < |moves|
      invariant 0 <= i <= |moves|
      invariant whiteCaptures == CapturedBy(moves[..i], White)
      invariant blackCaptures == CapturedBy(moves[..i], Black)
      invariant |whiteCaptures| + |blackCaptures| == CaptureCount(moves[..i])
    {
      var move := moves[i];
      assert moves[..i + 1] == moves[..i] + [move];
      CapturedByAppend(moves[..i], move, White);
      CapturedByAppend(moves[..i], move, Black);
      CaptureCountAppend(moves[..i], move);
      if move.captured.Some? {
        if move.color == White {
          whiteCaptures := whiteCaptures + [move.captured.value];
        } else {
          blackCaptures := blackCaptures + [move.captured.value];
        }
      }
      i := i + 1;
    }
    assert moves[..i] == moves;
  }

  /** The two lists together have one entry per capturing move. */
  lemma {:induction false} TallySizes(moves: seq<Move>)
    ensures |CapturedBy(moves, White)| + |CapturedBy(moves, Black)| == CaptureCount(moves)
  {
    if moves != [] {
      TallySizes(moves[1..]);
    }
  }

  /** Each capturing move has its captured kind in the list of the side that made it. */
  lemma {:induction false} CaptureListed(moves: seq<Move>, i: nat)
    requires i < |moves| && moves[i].captured.Some?
    ensures moves[i].captured.value in CapturedBy(moves, moves[i].color)
  {
    if i > 0 {
      assert moves[1..][i - 1] == moves[i];
      CaptureListed(moves[1..], i - 1);
    }
  }

  /** Each tally entry is the captured kind of some move of that side. */
  lemma {:induction false} TallyFromOwnMoves(moves: seq<Move>, c: Color, k: nat)
    requires k < |CapturedBy(moves, c)|
    ensures exists i :: 0 <= i < |moves| && moves[i].color == c && moves[i].captured == Some(CapturedBy(moves, c)[k])
  {
    var head := Contribution(moves[0], c);
    if k < |head| {
      assert moves[0].color == c && moves[0].captured == Some(CapturedBy(moves, c)[k]);
    } else {
      TallyFromOwnMoves(moves[1..], c, k - |head|);
      var i :| 0 <= i < |moves[1..]| && moves[1..][i].color == c
               && moves[1..][i].captured == Some(CapturedBy(moves[1..], c)[k - |head|]);
      assert moves[i + 1] == moves[1..][i];
    }
  }

  /**
   * Taking back the last move shrinks the recomputed tally by exactly that
   * move's capture: recomputing from the shorter history leaves no trace of it.
   */
  lemma UndoDropsLastCapture(moves: seq<Move>, c: Color)
    requires moves != []
    ensures CapturedBy(moves, c) == CapturedBy(moves[..|moves| - 1], c) + Contribution(moves[|moves| - 1], c)
  {
    assert moves == moves[..|moves| - 1] + [moves[|moves| - 1]];
    CapturedByAppend(moves[..|moves| - 1], moves[|moves| - 1], c);
  }
}
