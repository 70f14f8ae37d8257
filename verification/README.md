# Chess board UI: interaction state machine and derived views

This project models the logic of a browser chess board that sits on top of an
external rules engine (chess.js). The engine decides legality, check, mate and
draws; the UI code is responsible for the rest:

- **click-to-move selection**: select a piece, then click a destination;
- **board projection**: turning the engine's 8x8 matrix into a map from square names to pieces;
- **status sentence**: text derived from the engine's predicates in a fixed priority order;
- **capture tally**: the captured piece kinds of each side, in the order they were taken;
- **move-history rows**: moves grouped into numbered white/black pairs;
- **board orientation**: flipping, light/dark colouring and highlights.

The engine is an oracle, `Page.Engine<P>`, over an abstract position type `P`.
It answers the start position, board matrix, side to move, game-state flags,
history, legal moves (all of them, or those from one square), playing a move,
and undo (`None` when there is nothing to take back). Each page handler is a
pure function `State -> State`. `State` mirrors the page's fields: the engine
position, the projected squares, the history, the side to move, the status
text, the last-move marker, the selected square, the legal destinations and the
orientation flag.

The central invariant is `Page.Synced`. The derived fields equal a fresh
recomputation from the engine. There are no destinations without a selection.
A selection always holds a piece of the side to move, and its destinations are
exactly the engine's. Every handler preserves it.

Files:

- `chess_types.dfy`: the engine's vocabulary, including the `Square` type (64 names only) and the 8x8 `Matrix`.
- `projection.dfy`: `toSquare` and `createSquareMap`.
- `status.dfy`: `describeGameState`.
- `captures.dfy`: `collectCaptures`.
- `page.dfy`: the page state and its handlers.
- `move_history.dfy`: the row grouping of the move-history panel.
- `board_view.dfy`: the board component, and how what it draws agrees with the page state.

Two details of undo follow the code closely:

- On undo the page clears the selection. It does not bring back the piece selected before the move (`Page.MoveThenUndo`).
- An undo with nothing to take back returns before touching anything, so the selection is kept as well (`Page.HandleUndo`).

The move-history panel's row grouping is modelled as well.

## Model

| member | source | states |
|---|---|---|
| Projection.ToSquare | src/app/page.tsx:21-25 | the name built from column f and row r has file f and rank 8 - r: row 0 is rank 8, row 7 is rank 1 |
| Projection.ToSquareBijective | src/app/page.tsx:21-25 | a square name comes from exactly one (column, row) pair in 0..7, so the 64 names are distinct and cover every square |
| Projection.AllSquaresCount | src/app/page.tsx:21-45 | the matrix walk names exactly 64 different squares |
| Projection.CopyCell | src/app/page.tsx:35-40 | the map entry is a verbatim copy of the matrix cell: empty stays empty, a piece keeps its kind and colour |
| Projection.SquareMapOf | src/app/page.tsx:27-45 | every square has an entry, and the entry for the square at row r, column f is that matrix cell's piece (kind and colour) or empty |
| Projection.CreateSquareMap | src/app/page.tsx:27-45 | the nested row/column loop builds a total map whose entry for the square at row r, column f is cell [r][f] |
| Projection.OccupiedCount | src/app/page.tsx:27-45 | the number of occupied squares in the map equals the number of non-empty matrix cells |
| Status.FirstReported | src/app/page.tsx:47-67 | returns the first condition of the list the engine reports, with none of the earlier ones reported; nothing exactly when none is reported |
| Status.DescribeGameState | src/app/page.tsx:47-71 | the status sentence reads back as the first reported condition in the order checkmate, stalemate, repetition, insufficient material, other draw; with none, as the side to move and whether it is in check |
| Status.StatusOnCheckmate | src/app/page.tsx:48-51 | on checkmate the sentence names the side not to move as the winner, whatever draw flags are also set |
| Status.StatusInPlay | src/app/page.tsx:69-70 | with no terminal condition the sentence names the side to move and carries the check marker exactly when in check |
| Status.CheckMarkerExactlyInCheck | src/app/page.tsx:69-70 | the sentence ends in " (check!)" if and only if no terminal condition is reported and the side to move is in check |
| Captures.CollectCaptures | src/app/page.tsx:73-87 | the white list is the captured kinds of White's capturing moves in history order, the black list likewise, and their lengths add up to the number of capturing moves |
| Captures.CapturedByAppend | src/app/page.tsx:77-84 | one more move appends its captured kind to the list of its own side only, and nothing when it captured nothing |
| Captures.TallySizes | src/app/page.tsx:73-87 | the lengths of the two lists add up to the number of capturing moves |
| Captures.CaptureListed | src/app/page.tsx:77-84 | the captured kind of every capturing move is in the list of the side that made it |
| Captures.TallyFromOwnMoves | src/app/page.tsx:77-84 | every entry of a side's list is the captured kind of some move made by that side |
| Captures.UndoDropsLastCapture | src/app/page.tsx:73-87 | recomputing from the history without its last move gives the tally minus exactly that move's capture |
| Page.GetLegalTargets | src/app/page.tsx:89-91 | one destination per legal move from the square, and a square is a destination exactly when some legal move from the source goes there |
| Page.SyncState | src/app/page.tsx:104-110 | afterwards the squares, history, side to move and status agree with the engine and the last-move marker is the one given; position, selection and orientation are untouched |
| Page.FindMoveTo | src/app/page.tsx:125-126 | finds the first legal move to the square; it finds none exactly when the square is not among the legal targets |
| Page.ClickRequest | src/app/page.tsx:118-133 | a click asks for a move only with a selection other than the clicked square. It asks exactly when the square is a legal target of the selection. The move goes from the selection to the square, with the first matching legal move's promotion or else a queen |
| Page.HandleSquareClick | src/app/page.tsx:117-160 | after any click there are no destinations without a selection, and a selected square holds a piece of the side to move with its destinations freshly computed |
| Page.ClickOutcome | src/app/page.tsx:117-160 | the clicked square itself deselects; a legal destination plays the move, resynchronises, marks (from, to) and clears the selection; otherwise an own piece is selected and anything else clears the selection, with nothing else changed |
| Page.ClickPlaysExactlyHighlighted | src/app/page.tsx:124-138 | when the shown destinations are the engine's for the selected square, clicking another square plays a move if and only if that square is in the shown destination list |
| Page.ClickPreservesSynced | src/app/page.tsx:117-160 | a click keeps the page synchronised with the engine |
| Page.Init | src/app/page.tsx:94-102 | the page opens synchronised on the start position, with no selection, no last move and the board unflipped |
| Page.MountSyncChangesNothing | src/app/page.tsx:104-115 | the synchronisation run after mounting leaves the initial state as it is |
| Page.HandleRightClick | src/app/page.tsx:162-165 | a right click leaves no selection and no destinations, and every other field is kept |
| Page.HandleReset | src/app/page.tsx:167-173 | reset yields a synchronised page on the start position, unflipped, with no last move and no selection |
| Page.ResetRestoresInitial | src/app/page.tsx:167-173 | reset gives exactly the freshly opened page, whatever the state before |
| Page.HandleUndo | src/app/page.tsx:175-181 | with nothing to undo the state is unchanged. Otherwise the page shows the engine's previous position, synchronised, with no last move, no selection and the same orientation |
| Page.MoveThenUndo | src/app/page.tsx:128-181 | if the engine's undo takes back its own move, a clicked move followed by undo gives the page resynchronised on the position from before the move, with no selection and no last-move marker; on a page that agreed with the engine, that is the earlier board, history, side to move and status |
| Page.HandleFlip | src/app/page.tsx:183-185 | flip toggles the orientation flag and keeps every other field |
| Page.RandomIndex | src/app/page.tsx:190 | floor(random * n) for a random number in [0, 1) is a valid index below n |
| Page.RandomIndexReachesAll | src/app/page.tsx:190 | every index below n is drawn for some random number in [0, 1) |
| Page.HandleRandomMove | src/app/page.tsx:187-195 | with no legal move the state is unchanged. Otherwise one of the legal moves is played with its own promotion, it becomes the last move, and the page ends synchronised with no selection and the same orientation |
| Page.RandomMoveReachesAll | src/app/page.tsx:187-195 | for every legal move there is a random number in [0, 1) for which the random-move button plays exactly that move and marks it as the last move |
| Page.HandlersPreserveSynced | src/app/page.tsx:117-195 | click, right click, reset, undo, flip and random move all keep the page synchronised with the engine |
| MoveHistory.FindRowIndex | src/components/MoveHistory.tsx:17 | returns the first row with the given number, or -1 exactly when no row has it |
| MoveHistory.GroupRows | src/components/MoveHistory.tsx:11-32 | the loop builds ceil(n/2) rows numbered 1, 2, ... in order, and each row holds the expected later-of-its-colour move of its pair |
| MoveHistory.GroupedStep | src/components/MoveHistory.tsx:14-29 | move i opens row i/2 + 1 when i is even, with the other slot empty; when i is odd it sets the slot of its own colour in that row and keeps the opponent's slot, so a second move of the same colour overwrites the first; earlier rows are left alone |
| MoveHistory.MovePlacement | src/components/MoveHistory.tsx:14-27 | move i sits in the row numbered i/2 + 1, in the slot of its colour, unless the next move of the same row has the same colour and overwrites it |
| MoveHistory.SlotFromOwnPair | src/components/MoveHistory.tsx:19-27 | a slot only holds one of the two moves of its own row, made by the slot's colour |
| MoveHistory.AlternatingRows | src/components/MoveHistory.tsx:14-29 | with colours alternating from White, row r holds moves 2r-2 and 2r-1 (1-based r), the black slot empty only in a last half row |
| MoveHistory.RenderHistory | src/components/MoveHistory.tsx:34-40 | the "No moves played yet." placeholder appears exactly when the history is empty; otherwise the grouped rows are shown |
| BoardView.RankOrder | src/components/ChessBoard.tsx:58 | ranks from top to bottom are 8 down to 1, or 1 up to 8 when flipped |
| BoardView.FileOrder | src/components/ChessBoard.tsx:59 | files from left to right are a to h, or h to a when flipped |
| BoardView.SquareLabel | src/components/ChessBoard.tsx:45 | the label of a file letter and a rank digit is the square with that file and rank |
| BoardView.DisplaySquare | src/components/ChessBoard.tsx:58-66 | unflipped, display row r shows rank 8 - r and column f file f. Flipped, row r shows rank r + 1 and column f file h - f |
| BoardView.UnflippedIsMatrixOrder | src/components/ChessBoard.tsx:58-59 | unflipped, the board draws squares in the engine matrix's own row/column order |
| BoardView.FlipRotates | src/components/ChessBoard.tsx:58-59 | flipping reverses both axes: the square drawn at (r, f) flipped is the one drawn at (7 - r, 7 - f) unflipped |
| BoardView.DisplayOrderIsPermutation | src/components/ChessBoard.tsx:64-66 | in either orientation the nested iteration draws each of the 64 squares exactly once |
| BoardView.ColourFollowsSquare | src/components/ChessBoard.tsx:72 | the parity of display indices colours each square as on a real board (h1 light, a1 dark), the same in both orientations |
| BoardView.RenderCell | src/components/ChessBoard.tsx:66-72 | a drawn square is selected iff it is the selected square, a legal target iff it is in the destination list, a last-move square iff the last move exists and starts or ends there, and light iff it is a light square |
| BoardView.CellShowsEnginePiece | src/components/ChessBoard.tsx:66-67 | on a synchronised page each drawn square shows the engine matrix's piece for that square, in either orientation |
| BoardView.AtMostOneSelected | src/components/ChessBoard.tsx:68 | no two drawn squares are both marked as selected |
| BoardView.NoTargetsWithoutSelection | src/components/ChessBoard.tsx:69 | when the selection is consistent and nothing is selected, no square is marked as a destination |
| BoardView.TargetMarkIffClickPlays | src/components/ChessBoard.tsx:56-69 | with a selection, a drawn square other than the selected one is marked as a destination if and only if clicking it plays a move |
| BoardView.ContextMenu | src/components/ChessBoard.tsx:79-83 | without a handler the state is unchanged; with one, the result is the handler's |
| BoardView.ContextMenuEffect | src/components/ChessBoard.tsx:79-83 | with no handler a right click changes nothing; with the page's handler it clears the selection and its destinations and keeps every other field |

## Left out

- The rules engine itself: move generation, legality, check, mate and draw detection, notation, undo and reset internals. It is a foreign library and appears only as the `Engine` oracle.
- The engine throwing on an illegal move. The page only plays moves taken from the engine's own legal list, so `play` is a total oracle.
- React scheduling: `useState` setters, `useMemo` and effects. Each handler reads the values from before the event and writes new ones, which is modelled as one transition per event.
- Page.HandleRandomMove: `Math.random` is a real parameter in [0, 1). `Page.RandomMoveReachesAll` shows every legal move can be drawn, but not that the draw is uniform.
- Page.MoveThenUndo: the round trip holds only under the stated assumption that the engine's undo restores the position from before its own move, since the engine is not modelled.
- Page.ClickRequest: a queen promotion is also sent for moves that are not promotions, as `handleSquareClick` does (src/app/page.tsx:132). That the engine ignores it is part of the engine.
- The page also computes the side to move and the move count for the status panel. These are kept in `State` but only their agreement with the engine is stated.
- BoardView.ContextMenu: the call to `event.preventDefault()`, which stops the browser's own context menu when a handler is given, is not modelled; it has no effect on the page state.
- Styling, class names, glyph tables, the coordinate labels under the board, the `—` placeholder of empty history slots, and the components `ControlPanel.tsx`, `CapturedPieces.tsx` and `GameStatus.tsx`. They only display values and contain no logic.
