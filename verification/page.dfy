/**
 * The page's interaction state machine (src/app/page.tsx): the state the page
 * keeps beside the rules engine, and the handlers for a square click, a right
 * click, reset, undo, flip and a random move, each a pure transition.
 *
 * The engine is an oracle over an abstract position type `P`; the page
 * only ever asks it the questions listed in `Engine`.
 */
module Page {
  import opened ChessTypes
  import Projection
  import Status

  /** The rules engine as the page uses it. */
  datatype Engine<!P> = Engine(
    start: P,                               // the standard starting position
    board: P -> Matrix,                     // the 8x8 placement, row 0 = rank 8
    turn: P -> Color,                       // side to move
    flags: P -> GameFlags,                  // checkmate, draw and check predicates
    history: P -> seq<Move>,                // moves played so far, oldest first
    movesFrom: (P, Square) -> seq<Move>,    // legal moves from one square
    legalMoves: P -> seq<Move>,             // all legal moves
    play: (P, MoveRequest) -> P,            // apply a legal move
    undo: P -> Option<P>)                   // take back the last move, if any

  datatype LastMove = LastMove(from: Square, to: Square)

  /** Everything the page holds: the engine position and the state derived from it. */
  datatype State<!P> = State(
    game: P,
    squares: Projection.SquareMap,
    moves: seq<Move>,
    turn: Color,
    status: string,
    lastMove: Option<LastMove>,
    selected: Option<Square>,
    legalMoves: seq<Square>,
    flipped: bool)

  /** Destination squares of a list of moves, in order. */
  function Targets(ms: seq<Move>): seq<Square> {
    seq(|ms|, i requires 0 <= i < |ms| => ms[i].to)
  }

  /**
   * The squares a piece on `source` may move to: one entry per legal move
   * from it, in the engine's order, each the destination of that move.
   */
  function GetLegalTargets<P>(e: Engine<P>, game: P, source: Square): (ts: seq<Square>)
    ensures |ts| == |e.movesFrom(game, source)|
    ensures forall t :: t in ts <==> exists m :: m in e.movesFrom(game, source) && m.to == t
  {
    var ms := e.movesFrom(game, source);
    assert forall m :: m in ms ==> m.to == Targets(ms)[IndexOf(ms, m)];
    Targets(ms)
  }

  /** The first move of `ms` that lands on `square`, if any. */
  function FindMoveTo(ms: seq<Move>, square: Square): (r: Option<Move>)
    ensures r.None? <==> square !in Targets(ms)
    ensures r.Some? ==> exists i :: 0 <= i < |ms| && ms[i] == r.value && ms[i].to == square
                                    && forall j :: 0 <= j < i ==> ms[j].to != square
  {
    if ms == [] then None
    else
      assert Targets(ms) == [ms[0].to] + Targets(ms[1..]);
      if ms[0].to == square then Some(ms[0])
      else
        var r := FindMoveTo(ms[1..], square);
        assert forall i :: 1 <= i < |ms| ==> ms[i] == ms[1..][i - 1];
        r
  }

  /** A position of `m` in `ms`. */
  function IndexOf<T(==)>(ms: seq<T>, m: T): (i: nat)
    requires m in ms
    ensures i < |ms| && ms[i] == m
  {
    if ms[0] == m then 0 else 1 + IndexOf(ms[1..], m)
  }

  /** Whether the square holds, in the page's square map, a piece of the side to move. */
  predicate HoldsOwnPiece<P>(e: Engine<P>, s: State<P>, square: Square) {
    square in s.squares && s.squares[square].Some? && s.squares[square].value.color == e.turn(s.game)
  }

  /**
   * Recomputes every derived field from the engine and sets the last-move
   * marker; the position, selection and orientation are left alone.
   */
  function SyncState<P>(e: Engine<P>, s: State<P>, latest: Option<LastMove>): (r: State<P>)
    ensures Derived(e, r) && r.lastMove == latest
    ensures r.game == s.game && r.selected == s.selected && r.legalMoves == s.legalMoves && r.flipped == s.flipped
  {
    var turn := e.turn(s.game);
    s.(squares := Projection.SquareMapOf(e.board(s.game)),
       moves := e.history(s.game),
       turn := turn,
       status := Status.DescribeGameState(e.flags(s.game), turn),
       lastMove := latest)
  }

  /** The derived fields agree with the engine position. */
  predicate Derived<P>(e: Engine<P>, s: State<P>) {
    && s.squares == Projection.SquareMapOf(e.board(s.game))
    && s.moves == e.history(s.game)
    && s.turn == e.turn(s.game)
    && s.status == Status.DescribeGameState(e.flags(s.game), e.turn(s.game))
  }

  /**
   * No destinations without a selection; with one, the destinations are the
   * engine's for the selected square and that square holds a piece of the
   * side to move.
   */
  predicate SelectionConsistent<P>(e: Engine<P>, s: State<P>) {
    match s.selected
    case None => s.legalMoves == []
    case Some(source) => s.legalMoves == GetLegalTargets(e, s.game, source) && HoldsOwnPiece(e, s, source)
  }

  predicate Synced<P>(e: Engine<P>, s: State<P>) {
    Derived(e, s) && SelectionConsistent(e, s)
  }

  /** The state of a freshly opened page. */
  function Init<P>(e: Engine<P>): (s: State<P>)
    ensures Synced(e, s)
    ensures s.game == e.start && s.selected.None? && s.lastMove.None? && !s.flipped
  {
    State(e.start,
          Projection.SquareMapOf(e.board(e.start)),
          e.history(e.start),
          e.turn(e.start),
          Status.DescribeGameState(e.flags(e.start), e.turn(e.start)),
          None, None, [], false)
  }

  /** The synchronisation run once after mounting changes nothing. */
  lemma MountSyncChangesNothing<P>(e: Engine<P>)
    ensures SyncState(e, Init(e), None) == Init(e)
  {
  }

  /** Drops the selection and its destinations. */
  function ClearSelection<P>(s: State<P>): State<P> {
    s.(selected := None, legalMoves := [])
  }

  /** Selects `square` with its destinations recomputed from the engine. */
  function Select<P>(e: Engine<P>, s: State<P>, square: Square): State<P> {
    s.(selected := Some(square), legalMoves := GetLegalTargets(e, s.game, square))
  }

  /** Plays a move on the engine, resynchronises, marks it as the last move and clears the selection. */
  function PlayMove<P>(e: Engine<P>, s: State<P>, req: MoveRequest): State<P> {
    ClearSelection(SyncState(e, s.(game := e.play(s.game, req)), Some(LastMove(req.from, req.to))))
  }

  /** The promotion sent with a clicked move: the legal move's own, else a queen. */
  function PromotionOrQueen(m: Move): Kind {
    if m.promotion.Some? then m.promotion.value else Queen
  }

  /**
   * The move a click on `square` asks the engine to play: there is one only
   * with a selection other than `square` and a legal move from it to `square`,
   * and it carries the promotion of the first such legal move, else a queen.
   */
  function ClickRequest<P>(e: Engine<P>, s: State<P>, square: Square): (req: Option<MoveRequest>)
    ensures req.Some? ==> s.selected.Some? && s.selected != Some(square)
                          && req.value.from == s.selected.value && req.value.to == square
    ensures req.Some? ==>
              var ms := e.movesFrom(s.game, s.selected.value);
              exists i :: 0 <= i < |ms| && ms[i].to == square && (forall j :: 0 <= j < i ==> ms[j].to != square)
                          && req.value.promotion == Some(PromotionOrQueen(ms[i]))
    ensures s.selected.Some? && s.selected != Some(square) ==>
              (req.Some? <==> square in GetLegalTargets(e, s.game, s.selected.value))
  {
    if s.selected.None? || s.selected == Some(square) then None
    else
      var source := s.selected.value;
      match FindMoveTo(e.movesFrom(s.game, source), square)
      case None => None
      case Some(chosen) => Some(MoveRequest(source, square, Some(PromotionOrQueen(chosen))))
  }

  /**
   * A click on a square: deselect when it is the selected square; play the
   * move when it is a legal destination of the selection; otherwise select
   * it when it holds a piece of the side to move, and clear the selection
   * when it does not.
   */
  function HandleSquareClick<P>(e: Engine<P>, s: State<P>, square: Square): (r: State<P>)
    ensures r.selected.None? ==> r.legalMoves == []
    ensures r.selected.Some? ==>
              r.legalMoves == GetLegalTargets(e, r.game, r.selected.value) && HoldsOwnPiece(e, r, r.selected.value)
  {
    if s.selected == Some(square) then
      ClearSelection(s)
    else
      match ClickRequest(e, s, square)
      case Some(req) => PlayMove(e, s, req)
      case None =>
        if HoldsOwnPiece(e, s, square) then Select(e, s, square) else ClearSelection(s)
  }

  /** The four outcomes of a click, and that nothing else changes. */
  lemma ClickOutcome<P>(e: Engine<P>, s: State<P>, square: Square)
    ensures var r := HandleSquareClick(e, s, square);
            var req := ClickRequest(e, s, square);
            && (s.selected == Some(square) ==> r == s.(selected := None, legalMoves := []))
            && (req.Some? ==>
                  && r.game == e.play(s.game, req.value)
                  && Derived(e, r)
                  && r.lastMove == Some(LastMove(s.selected.value, square))
                  && r.selected.None? && r.flipped == s.flipped)
            && (s.selected != Some(square) && req.None? && HoldsOwnPiece(e, s, square) ==>
                  r == s.(selected := Some(square), legalMoves := GetLegalTargets(e, s.game, square)))
            && (s.selected != Some(square) && req.None? && !HoldsOwnPiece(e, s, square) ==>
                  r == s.(selected := None, legalMoves := []))
  {
  }

  /**
   * With a consistent selection, a click on another square plays
   * a move exactly when that square is one of the highlighted destinations.
   */
  lemma ClickPlaysExactlyHighlighted<P>(e: Engine<P>, s: State<P>, square: Square)
    requires SelectionConsistent(e, s) && s.selected.Some? && s.selected != Some(square)
    ensures ClickRequest(e, s, square).Some? <==> square in s.legalMoves
  {
  }

  /** The right-button handler. */
  function HandleRightClick<P>(s: State<P>): (r: State<P>)
    ensures r.selected.None? && r.legalMoves == []
    ensures r.(selected := s.selected, legalMoves := s.legalMoves) == s
  {
    ClearSelection(s)
  }

  /** The reset button: starting position, default orientation, no marker, no selection. */
  function HandleReset<P>(e: Engine<P>, s: State<P>): (r: State<P>)
    ensures Synced(e, r)
    ensures r.game == e.start && !r.flipped && r.lastMove.None? && r.selected.None?
  {
    ClearSelection(SyncState(e, s.(game := e.start, flipped := false), None))
  }

  /** The undo button: a no-op when there is nothing to take back. */
  function HandleUndo<P>(e: Engine<P>, s: State<P>): (r: State<P>)
    ensures e.undo(s.game).None? ==> r == s
    ensures e.undo(s.game).Some? ==>
              r.game == e.undo(s.game).value && Synced(e, r) && r.lastMove.None? && r.selected.None?
              && r.flipped == s.flipped
  {
    match e.undo(s.game)
    case None => s
    case Some(previous) => ClearSelection(SyncState(e, s.(game := previous), None))
  }

  /** The flip button. */
  function HandleFlip<P>(s: State<P>): (r: State<P>)
    ensures r.flipped != s.flipped
    ensures r.(flipped := s.flipped) == s
  {
    s.(flipped := !s.flipped)
  }

  /** Index picked by `Math.floor(random * n)` for a `random` in [0, 1). */
  function RandomIndex(random: real, n: nat): (i: nat)
    requires 0.0 <= random < 1.0 && n > 0
    ensures i < n
  {
    var x := random * (n as real);
    assert x < n as real by {
      assert (n as real) - x == (1.0 - random) * (n as real);
    }
    assert x.Floor as real <= x < x.Floor as real + 1.0;
    x.Floor
  }

  /** Every index can come out of the draw. */
  lemma RandomIndexReachesAll(n: nat, k: nat)
    requires k < n
    ensures var random := (k as real) / (n as real);
            0.0 <= random < 1.0 && RandomIndex(random, n) == k
  {
    var random := (k as real) / (n as real);
    assert random * (n as real) == k as real;
  }

  /** The random-move button: a no-op when no move is legal. */
  function HandleRandomMove<P>(e: Engine<P>, s: State<P>, random: real): (r: State<P>)
    requires 0.0 <= random < 1.0
    ensures e.legalMoves(s.game) == [] ==> r == s
    ensures e.legalMoves(s.game) != [] ==>
              var legal := e.legalMoves(s.game);
              exists i :: 0 <= i < |legal|
                          && r.game == e.play(s.game, MoveRequest(legal[i].from, legal[i].to, legal[i].promotion))
                          && r.lastMove == Some(LastMove(legal[i].from, legal[i].to))
    ensures e.legalMoves(s.game) != [] ==> Synced(e, r) && r.selected.None? && r.flipped == s.flipped
  {
    var legal := e.legalMoves(s.game);
    if |legal| == 0 then s
    else
      var randomMove := legal[RandomIndex(random, |legal|)];
      PlayMove(e, s, MoveRequest(randomMove.from, randomMove.to, randomMove.promotion))
  }

  /** Every legal move is the one played for some draw of the random number. */
  lemma RandomMoveReachesAll<P>(e: Engine<P>, s: State<P>, k: nat)
    requires k < |e.legalMoves(s.game)|
    ensures var legal := e.legalMoves(s.game);
            var random := (k as real) / (|legal| as real);
            && 0.0 <= random < 1.0
            && HandleRandomMove(e, s, random).game == e.play(s.game, MoveRequest(legal[k].from, legal[k].to, legal[k].promotion))
            && HandleRandomMove(e, s, random).lastMove == Some(LastMove(legal[k].from, legal[k].to))
  {
    RandomIndexReachesAll(|e.legalMoves(s.game)|, k);
  }

  /** Every handler keeps the page synchronised with the engine. */
  lemma HandlersPreserveSynced<P>(e: Engine<P>, s: State<P>, square: Square, random: real)
    requires Synced(e, s)
    requires 0.0 <= random < 1.0
    ensures Synced(e, HandleSquareClick(e, s, square))
    ensures Synced(e, HandleRightClick(s))
    ensures Synced(e, HandleReset(e, s))
    ensures Synced(e, HandleUndo(e, s))
    ensures Synced(e, HandleFlip(s))
    ensures Synced(e, HandleRandomMove(e, s, random))
  {
    ClickPreservesSynced(e, s, square);
  }

  lemma ClickPreservesSynced<P>(e: Engine<P>, s: State<P>, square: Square)
    requires Synced(e, s)
    ensures Synced(e, HandleSquareClick(e, s, square))
  {
    var r := HandleSquareClick(e, s, square);
    if s.selected != Some(square) && ClickRequest(e, s, square).Some? {
      assert Derived(e, r);
    } else {
      assert r.game == s.game && r.squares == s.squares && r.moves == s.moves;
      assert r.turn == s.turn && r.status == s.status;
    }
  }

  /** Reset yields the freshly opened page, whatever came before. */
  lemma ResetRestoresInitial<P>(e: Engine<P>, s: State<P>)
    ensures HandleReset(e, s) == Init(e)
  {
  }

  /**
   * Playing a clicked move and undoing it gives back the board, history,
   * side to move and status of the position before the move, with no
   * selection and no last-move marker, provided the engine's undo takes back
   * its own move; on a page that agreed with the engine that is the page
   * from before the move, less its selection and marker.
   */
  lemma MoveThenUndo<P>(e: Engine<P>, s: State<P>, square: Square)
    requires ClickRequest(e, s, square).Some?
    requires e.undo(e.play(s.game, ClickRequest(e, s, square).value)) == Some(s.game)
    ensures HandleUndo(e, HandleSquareClick(e, s, square)) == ClearSelection(SyncState(e, s, None))
    ensures Derived(e, s) ==>
              HandleUndo(e, HandleSquareClick(e, s, square)) == s.(selected := None, legalMoves := [], lastMove := None)
  {
  }
}
