/**
 * Status text of the page (src/app/page.tsx): one sentence derived from the
 * engine's game-state predicates and the side to move, consulting the
 * predicates in a fixed order where the first that holds decides the text.
 */
module Status {
  import opened ChessTypes

  /**
   * The status sentence shown above the board. It names exactly the first
   * reported condition in the order checkmate, stalemate, repetition,
   * insufficient material, other draw; the winner of a checkmate is the side
   * not to move; with no condition it names the side to move and whether it
   * is in check.
   */
  function DescribeGameState(g: GameFlags, turn: Color): (r: string)
    ensures ParseStatus(r) == Some(Expected(g, turn))
  {
    PriorityOrder(g);
    if g.checkmate then
      var winner := if turn == White then "Black" else "White";
      WinRead(turn);
      winner + " wins by checkmate"
    else if g.stalemate then
      DrawRead();
      "Draw by stalemate"
    else if g.threefold then
      DrawRead();
      "Draw by repetition"
    else if g.insufficient then
      DrawRead();
      "Draw by insufficient material"
    else if g.draw then
      DrawRead();
      "Drawn position"
    else
      var player := if turn == White then "White" else "Black";
      ToMoveRead(turn, g.inCheck);
      if g.inCheck then player + " to move (check!)" else player + " to move"
  }

  /** The checkmate sentence reads back as a win for the side not to move. */
  lemma WinRead(turn: Color)
    ensures var winner := if turn == White then "Black" else "White";
            ParseStatus(winner + " wins by checkmate") == Some(Won(Opponent(turn)))
  {
    if turn == White {
      WinnerRead("Black", Black);
    } else {
      WinnerRead("White", White);
    }
  }

  /** The checkmate sentence naming `winner` reads back as a win for that side. */
  lemma WinnerRead(winner: string, side: Color)
    requires winner == if side == White then "White" else "Black"
    ensures ParseStatus(winner + " wins by checkmate") == Some(Won(side))
  {
    if side == White {
      assert winner + " wins by checkmate" == "White wins by checkmate";
    } else {
      assert winner + " wins by checkmate" == "Black wins by checkmate";
    }
  }

  /** The draw sentences read back as their reasons. */
  lemma DrawRead()
    ensures ParseStatus("Draw by stalemate") == Some(Drawn(Stalemate))
    ensures ParseStatus("Draw by repetition") == Some(Drawn(Repetition))
    ensures ParseStatus("Draw by insufficient material") == Some(Drawn(InsufficientMaterial))
    ensures ParseStatus("Drawn position") == Some(Drawn(OtherDraw))
  {
  }

  /** The sentence of a game in progress reads back as the side to move and the check marker. */
  lemma ToMoveRead(turn: Color, inCheck: bool)
    ensures var player := if turn == White then "White" else "Black";
            ParseStatus(if inCheck then player + " to move (check!)" else player + " to move")
            == Some(ToMove(turn, inCheck))
  {
    if turn == White {
      SideToMoveRead("White", White);
    } else {
      SideToMoveRead("Black", Black);
    }
  }

  /** Both sentences naming `player` as the side to move read back as that side. */
  lemma SideToMoveRead(player: string, side: Color)
    requires player == if side == White then "White" else "Black"
    ensures ParseStatus(player + " to move") == Some(ToMove(side, false))
    ensures ParseStatus(player + " to move (check!)") == Some(ToMove(side, true))
  {
    ToMoveSentences();
    if side == White {
      assert player + " to move" == "White to move";
      assert player + " to move (check!)" == "White to move (check!)";
    } else {
      assert player + " to move" == "Black to move";
      assert player + " to move (check!)" == "Black to move (check!)";
    }
  }

  /** The four sentences of a game in progress read back as what they say. */
  lemma ToMoveSentences()
    ensures ParseStatus("White to move") == Some(ToMove(White, false))
    ensures ParseStatus("Black to move") == Some(ToMove(Black, false))
    ensures ParseStatus("White to move (check!)") == Some(ToMove(White, true))
    ensures ParseStatus("Black to move (check!)") == Some(ToMove(Black, true))
  {
  }

  /** The terminal conditions the engine can report. */
  datatype Verdict = Checkmate | Stalemate | Repetition | InsufficientMaterial | OtherDraw

  /** The order in which the conditions are consulted. */
  const Priority: seq<Verdict> := [Checkmate, Stalemate, Repetition, InsufficientMaterial, OtherDraw]

  /** Whether the engine reports condition `v`. */
  predicate Reports(g: GameFlags, v: Verdict) {
    match v
    case Checkmate => g.checkmate
    case Stalemate => g.stalemate
    case Repetition => g.threefold
    case InsufficientMaterial => g.insufficient
    case OtherDraw => g.draw
  }

  /** The first condition of `vs` that the engine reports, if there is one. */
  function FirstReported(g: GameFlags, vs: seq<Verdict>): (r: Option<Verdict>)
    ensures r.None? <==> forall i :: 0 <= i < |vs| ==> !Reports(g, vs[i])
    ensures r.Some? ==> exists i :: 0 <= i < |vs| && vs[i] == r.value && Reports(g, vs[i])
                                    && forall j :: 0 <= j < i ==> !Reports(g, vs[j])
  {
    if vs == [] then None
    else if Reports(g, vs[0]) then Some(vs[0])
    else
      var r := FirstReported(g, vs[1..]);
      assert forall i :: 1 <= i < |vs| ==> vs[i] == vs[1..][i - 1];
      r
  }

  /** What a status sentence tells the player. */
  datatype Reading = Won(winner: Color) | Drawn(reason: Verdict) | ToMove(side: Color, inCheck: bool)

  /** The reading the priority order calls for. */
  function Expected(g: GameFlags, turn: Color): Reading {
    match FirstReported(g, Priority)
    case Some(Checkmate) => Won(Opponent(turn))
    case Some(v) => Drawn(v)
    case None => ToMove(turn, g.inCheck)
  }

  /** Reads a status sentence back; None for a sentence the page never shows. */
  function ParseStatus(text: string): Option<Reading> {
    if text == "White wins by checkmate" then Some(Won(White))
    else if text == "Black wins by checkmate" then Some(Won(Black))
    else if text == "Draw by stalemate" then Some(Drawn(Stalemate))
    else if text == "Draw by repetition" then Some(Drawn(Repetition))
    else if text == "Draw by insufficient material" then Some(Drawn(InsufficientMaterial))
    else if text == "Drawn position" then Some(Drawn(OtherDraw))
    else if text == "White to move" then Some(ToMove(White, false))
    else if text == "Black to move" then Some(ToMove(Black, false))
    else if text == "White to move (check!)" then Some(ToMove(White, true))
    else if text == "Black to move (check!)" then Some(ToMove(Black, true))
    else None
  }

  /** On checkmate the sentence names the side not to move as the winner, whatever else is reported. */
  lemma StatusOnCheckmate(g: GameFlags, turn: Color)
    requires g.checkmate
    ensures ParseStatus(DescribeGameState(g, turn)) == Some(Won(Opponent(turn)))
  {
    PriorityOrder(g);
  }

  /** With no terminal condition the sentence names the side to move and whether it is in check. */
  lemma StatusInPlay(g: GameFlags, turn: Color)
    requires !g.checkmate && !g.stalemate && !g.threefold && !g.insufficient && !g.draw
    ensures ParseStatus(DescribeGameState(g, turn)) == Some(ToMove(turn, g.inCheck))
  {
    PriorityOrder(g);
  }

  /** The first reported condition, case by case along the priority order. */
  lemma PriorityOrder(g: GameFlags)
    ensures g.checkmate ==> FirstReported(g, Priority) == Some(Checkmate)
    ensures !g.checkmate && g.stalemate ==> FirstReported(g, Priority) == Some(Stalemate)
    ensures !g.checkmate && !g.stalemate && g.threefold ==> FirstReported(g, Priority) == Some(Repetition)
    ensures (!g.checkmate && !g.stalemate && !g.threefold && g.insufficient)
      ==> FirstReported(g, Priority) == Some(InsufficientMaterial)
    ensures (!g.checkmate && !g.stalemate && !g.threefold && !g.insufficient && g.draw)
      ==> FirstReported(g, Priority) == Some(OtherDraw)
    ensures (!g.checkmate && !g.stalemate && !g.threefold && !g.insufficient && !g.draw)
      ==> FirstReported(g, Priority) == None
  {
    var p1 := Priority[1..];
    var p2 := p1[1..];
    var p3 := p2[1..];
    var p4 := p3[1..];
    assert Priority[0] == Checkmate && p1[0] == Stalemate && p2[0] == Repetition;
    assert p3[0] == InsufficientMaterial && p4 == [OtherDraw] && p4[1..] == [];
    assert FirstReported(g, p4) == if g.draw then Some(OtherDraw) else None;
    assert FirstReported(g, p3) == if g.insufficient then Some(InsufficientMaterial) else FirstReported(g, p4);
    assert FirstReported(g, p2) == if g.threefold then Some(Repetition) else FirstReported(g, p3);
    assert FirstReported(g, p1) == if g.stalemate then Some(Stalemate) else FirstReported(g, p2);
    assert FirstReported(g, Priority) == if g.checkmate then Some(Checkmate) else FirstReported(g, p1);
  }

  predicate EndsWith(text: string, suffix: string) {
    |suffix| <= |text| && text[|text| - |suffix|..] == suffix
  }

  /** The " (check!)" marker appears exactly when play goes on and the side to move is in check. */
  lemma CheckMarkerExactlyInCheck(g: GameFlags, turn: Color)
    ensures EndsWith(DescribeGameState(g, turn), " (check!)")
        <==> (FirstReported(g, Priority).None? && g.inCheck)
  {
    PriorityOrder(g);
    if g.checkmate || g.stalemate || g.threefold || g.insufficient || g.draw || !g.inCheck {
      NoCheckMarker(g, turn);
    } else {
      var text := DescribeGameState(g, turn);
      assert text[|text| - 9..] == " (check!)";
    }
  }

  /** Every sentence other than "... to move (check!)" ends in a letter, not in ')'. */
  lemma NoCheckMarker(g: GameFlags, turn: Color)
    requires g.checkmate || g.stalemate || g.threefold || g.insufficient || g.draw || !g.inCheck
    ensures !EndsWith(DescribeGameState(g, turn), " (check!)")
  {
    var text := DescribeGameState(g, turn);
    assert text[|text| - 1] != ')';
  }
}
