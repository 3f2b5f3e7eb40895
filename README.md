# Chess AI core in Dafny

This project models the chess engine's `ai.py`. The engine keeps a position as four parallel
lists: white's piece kinds, white's locations, black's piece kinds and black's locations. On
that position it:

- generates pseudo-legal moves with one generator per piece kind;
- applies a move to copies of the lists;
- evaluates material;
- stops the search once a king is missing;
- chooses black's reply with a depth-limited minimax search with alpha-beta pruning.

The model is split into seven modules:

- `Board`: kinds, colours, squares, moves, the position, `list.index` (`IndexOf`) and `list.pop` on a copy (`Remove`).
- `Scores`: extended integers (`NegInf | Fin(n) | PosInf`) standing for Python's floats `-inf`, integers and `inf`. It also holds `max`/`min` with Python's tie behaviour and their folds over a list.
- `MoveGen`: a specification function per generator and a method with the engine's loops, proved to return exactly that list.
- `MoveGenFacts`: what the generated lists contain.
- `Evaluate`: `evaluate_board` (a loop method against the function `Evaluation`) and `game_over`.
- `Apply`: `apply_move` (a loop-free method against the function `Applied`) and the effects of a move.
- `Search`: the unpruned game value `Minimax` (a function), `minimax` with pruning (the method `AlphaBeta` and its two loops), and `get_best_move`.

The engine's behaviour is reproduced exactly, including:

- **Capture test for black.** The capture test `sq in black_locations if color == 'white' else white_locations` parses as a conditional expression. For black it only asks whether white has any location (`MoveGen.CaptureTest`). A black slider can therefore leave the board (`MoveGenFacts.BlackRayLeavesBoard`).
- **Queen tags.** Queen moves are tagged `rook` or `bishop`.
- **Choosing the side.** `apply_move` picks the side by `piece in black_pieces`, so a move can be read as the other side's and change nothing (`Apply.SharedKindIsNoOp`, `Apply.BlackQueenMoveIsNoOp`).
- **Pawn checks.**
  - The double step looks only at its destination.
  - Pawn captures have no bounds test.
- **Ray bounds.** The ray loops test only the edges they head towards (`MoveGen.InRayBound`).
- **First occurrence.** `list.index` finds the first occurrence (`Apply.CaptureTakesFirstEntry`).
- **Truncation.** `zip` stops at the shorter list.
- **No moves.** A side with no moves scores `-inf` or `inf` (`Search.NoMovesIsInfinite`).
- **No reply.** `get_best_move` returns `None` when no score is below `inf` (`Search.BestMoveChoice`).

## Model

| member | source | states |
|---|---|---|
| Board.IndexOf | chess_game/ai.py:110 | the index returned holds the element and no earlier index does (first occurrence) |
| Board.Remove | chess_game/ai.py:114-115 | `pop(i)` on a copy: one shorter, entries before i kept, later entries shifted down by one, multiset loses exactly `s[i]` |
| Board.ZipLen | chess_game/ai.py:59 | `zip` yields as many pairs as the shorter of a side's two lists |
| Scores.Max | chess_game/ai.py:24-25 | Python's `max`: an upper bound of both arguments and equal to one of them |
| Scores.Min | chess_game/ai.py:34-35 | Python's `min`: a lower bound of both arguments and equal to one of them |
| Scores.LeqTotalOrder | chess_game/ai.py:26 | the comparison used for scores and `inf` is a total order |
| Scores.MaxOfIsMax | chess_game/ai.py:20-24 | the fold of `max` from `-inf` bounds every child value and is one of them, or `-inf` for no children |
| Scores.MinOfIsMin | chess_game/ai.py:30-34 | the fold of `min` from `inf` is below every child value and is one of them, or `inf` for no children |
| Scores.MaxOfNext | chess_game/ai.py:24 | one more child folds into the running maximum |
| Scores.MinOfNext | chess_game/ai.py:34 | one more child folds into the running minimum |
| Scores.MaxOfPrefix | chess_game/ai.py:26-27 | the maximum over the children seen before a cut-off is at most the maximum over all of them |
| Scores.MinOfPrefix | chess_game/ai.py:36-37 | the minimum over the children seen before a cut-off is at least the minimum over all of them |
| Evaluate.PieceValue | chess_game/ai.py:4 | every piece is worth between 1 and 1000, and 1000 exactly for the king |
| Evaluate.PieceSum | chess_game/ai.py:7-8 | a list of n kinds is worth between n and 1000·n |
| Evaluate.EvaluateBoard | chess_game/ai.py:3-13 | the running value ends as white's zipped material minus black's zipped material |
| Evaluate.GameOver | chess_game/ai.py:129-132 | over exactly when some side's kinds list holds no king |
| Evaluate.PieceSumAppend | chess_game/ai.py:7-8 | material of a concatenation is the sum of the materials |
| Evaluate.PieceSumMultiset | chess_game/ai.py:7-8 | material depends only on how many pieces of each kind there are, not on their order |
| Evaluate.PieceSumRemove | chess_game/ai.py:8 | removing one piece lowers the material by exactly its value |
| Evaluate.EvaluationSwap | chess_game/ai.py:7-11 | exchanging the sides negates the evaluation |
| Evaluate.EvaluationIgnoresLocations | chess_game/ai.py:7-11 | the evaluation reads the location lists only for their lengths |
| Evaluate.GameOverWithoutKing | chess_game/ai.py:130-131 | a side (white or black) whose kinds list holds no king ends the game, whatever the other side holds |
| Apply.Applied | chess_game/ai.py:99-127 | the position after a move is well formed when the position before it was |
| Apply.ApplyMove | chess_game/ai.py:99-127 | the copied lists end as `Applied`: the side chosen by kind, the mover relocated at the first index of its origin, the piece first found on the destination popped, or nothing changed when the origin is missing |
| Apply.WellFormedApplicable | chess_game/ai.py:113-115 | on a well-formed position `pop` never runs past the end of the opponent's kinds list |
| Apply.MissingOriginUnchanged | chess_game/ai.py:107-109 | an origin the chosen side does not occupy returns the position unchanged |
| Apply.BlackMoveEffects | chess_game/ai.py:106-115 | a black move keeps black's kinds, changes black's locations only at the first index of the origin, and removes exactly white's entry at the first index of the destination, if any |
| Apply.WhiteMoveEffects | chess_game/ai.py:116-125 | the mirror image for a white move |
| Apply.PieceCount | chess_game/ai.py:112-125 | a move removes at most one piece |
| Apply.BlackMoveMaterial | chess_game/ai.py:112-115 | a black capture lowers the evaluation by exactly the captured piece's value; a quiet black move leaves it unchanged |
| Apply.WhiteMoveMaterial | chess_game/ai.py:122-125 | a white capture raises the evaluation by exactly the captured piece's value; a quiet white move leaves it unchanged |
| Apply.CapturingKingEndsGame | chess_game/ai.py:112-115 | taking white's only king makes the position game-over |
| Apply.SharedKindIsNoOp | chess_game/ai.py:106-109 | a white rook move is read as black's when black also owns a rook, and changes nothing |
| Apply.CaptureTakesFirstEntry | chess_game/ai.py:113-115 | a capture on a square white lists twice removes the first entry, and white still lists a piece there |
| Apply.BlackQueenMoveIsNoOp | chess_game/ai.py:106-119 | a black queen's rook-tagged move is read as white's when black owns no rook, and changes nothing |
| MoveGen.GetRayMoves | chess_game/ai.py:160-167 | one `for i in range(1, 8)` ray loop builds exactly `Ray`: free squares, then the first blocked square when it passes the capture test |
| MoveGen.GetRookMoves | chess_game/ai.py:157-192 | the rook's moves are its four rays in the order +x, -x, +y, -y |
| MoveGen.GetBishopMoves | chess_game/ai.py:206-241 | the bishop's moves are its four diagonals in the engine's order |
| MoveGen.GetQueenMoves | chess_game/ai.py:243-244 | the queen's moves are the rook's followed by the bishop's |
| MoveGen.GetJumpMoves | chess_game/ai.py:199-203 | the target loop keeps, in order, the targets that are empty and on the board or pass the capture test |
| MoveGen.GetKnightMoves | chess_game/ai.py:194-204 | the knight's moves are the jumps over its eight targets in the engine's order |
| MoveGen.GetKingMoves | chess_game/ai.py:246-256 | the king's moves are the jumps over its eight neighbours in the engine's order |
| MoveGen.GetPieceMoves | chess_game/ai.py:59-71 | the `if piece == ...` chain dispatches to the generator of the piece's kind |
| MoveGen.CollectMoves | chess_game/ai.py:59-86 | the zip loop concatenates the pieces' moves in piece order, over as many pairs as the shorter list |
| MoveGen.GetAllMoves | chess_game/ai.py:53-96 | the result is `AllMoves`: the collected moves without those landing on the side's own squares |
| MoveGenFacts.RayShape | chess_game/ai.py:160-167 | a ray move lands on step k exactly when all earlier steps were free and step k is free or passes the capture test; the ray has at most seven moves, in step order |
| MoveGenFacts.WhiteRayLands | chess_game/ai.py:160-167 | a white ray from an on-board square reaches only on-board squares that are empty or black's, and only its last square can be occupied |
| MoveGenFacts.RayFrom | chess_game/ai.py:162-164 | every ray move starts on the piece's square and carries the ray's tag |
| MoveGenFacts.SlidersFrom | chess_game/ai.py:157-241 | rook moves are tagged `rook` and bishop moves `bishop`, all starting on the piece's square |
| MoveGenFacts.WhiteRayMoves | chess_game/ai.py:160-167 | every move of a white ray lands on the board, on an empty square or one of black's |
| MoveGenFacts.WhiteRookLands | chess_game/ai.py:157-192 | the same for all of a white rook's moves |
| MoveGenFacts.WhiteBishopLands | chess_game/ai.py:206-241 | the same for all of a white bishop's moves |
| MoveGenFacts.JumpsMembers | chess_game/ai.py:197-203 | a knight or king move goes to a target exactly when the target passes the landing test; there are no more moves than targets |
| MoveGenFacts.JumpsAtMostOnce | chess_game/ai.py:197-203 | with pairwise distinct targets no target receives two moves |
| MoveGen.PawnMoves | chess_game/ai.py:134-155 | every pawn move starts on the pawn's square with tag pawn, and there are at most four (single step, double step, two diagonal captures) |
| MoveGenFacts.PawnMovesWhite | chess_game/ai.py:137-145 | the white pawn's moves, both directions: single step, double step from rank 1 checking only the destination, diagonal captures onto black's squares |
| MoveGenFacts.PawnMovesBlack | chess_game/ai.py:146-154 | the black pawn's moves, both directions: single step, double step from rank 6, diagonal captures onto white's squares |
| MoveGenFacts.PieceMovesFrom | chess_game/ai.py:59-86 | every generated move starts on its piece's square and carries its kind, except that queen moves are tagged rook or bishop |
| MoveGenFacts.WhitePieceMovesLand | chess_game/ai.py:74-86 | every move any white piece generates lands on the board, on an empty square or one of black's |
| MoveGenFacts.GeneratedFrom | chess_game/ai.py:59-86 | every collected move starts on the location of a piece that `zip` pairs |
| MoveGenFacts.DropOwnMembers | chess_game/ai.py:94 | the filter keeps exactly the moves whose destination is not the side's own square, and no more moves than it was given |
| MoveGenFacts.DropOwnAppend | chess_game/ai.py:94 | the filter works move by move, keeping the survivors in generation order: filtering a concatenation concatenates the filtered parts |
| MoveGenFacts.AllMovesOwnSide | chess_game/ai.py:53-96 | every move of a side starts on one of its zipped squares and never ends on one of its own squares |
| MoveGenFacts.BlackRayLeavesBoard | chess_game/ai.py:163 | a black rook on (7, 7) is offered the off-board square (8, 7) |
| MoveGenFacts.PawnDoubleStepJumps | chess_game/ai.py:140-141 | a white pawn may jump over a piece directly in front of it |
| MoveGenFacts.PawnHomeRank | chess_game/ai.py:138-141 | a white pawn on its home rank with nothing ahead steps one or two squares, no further |
| MoveGenFacts.RookStopsAtCapture | chess_game/ai.py:176-183 | a white rook moves up to a black piece, captures it, and goes no further |
| Search.MaxStep | chess_game/ai.py:22-27 | one pass of white's loop keeps the loop's bookkeeping against the unpruned maximum |
| Search.MaxResult | chess_game/ai.py:26-28 | when white's loop ends, by cut-off or after every move, `max_eval` keeps the fail-soft promise for the window against the unpruned maximum |
| Search.MinStep | chess_game/ai.py:32-37 | one pass of black's loop keeps the loop's bookkeeping against the unpruned minimum |
| Search.MinResult | chess_game/ai.py:36-38 | when black's loop ends, `min_eval` keeps the fail-soft promise for the window against the unpruned minimum |
| Search.AlphaBeta | chess_game/ai.py:15-38 | inside a proper window the pruned result is an upper bound when at or below alpha, a lower bound when at or above beta, and the unpruned minimax value in between; with the full window it equals the unpruned value; at depth 0 or once a king is missing it is the board evaluation whatever the window |
| Search.MaxValue | chess_game/ai.py:19-28 | white's loop with cut-offs keeps the fail-soft promise against the maximum over all children |
| Search.MinValue | chess_game/ai.py:29-38 | black's loop with cut-offs keeps the fail-soft promise against the minimum over all children |
| Search.Lowest | chess_game/ai.py:41-49 | the index the root loop settles on is -1 or a valid index |
| Search.LowestIsFirstMinimum | chess_game/ai.py:42-49 | no index exactly when every score is `inf`; otherwise a smallest score, and the first one |
| Search.GetBestMove | chess_game/ai.py:40-51 | the move returned is black's move at the `Lowest` root score, or `None` |
| Search.LowestMove | chess_game/ai.py:41-51 | the root loop, searching each reply three plies with the full window, keeps the first strictly lowest score |
| Search.BestMoveChoice | chess_game/ai.py:40-51 | one root score per black move; `None` exactly when every score is `inf`; otherwise the chosen move has a smallest score and every earlier one scores strictly more |
| Search.NoMovesIsInfinite | chess_game/ai.py:20-21 | a side with no moves in an unfinished position scores `-inf` (white) or `inf` (black) |

## Left out

- The `print` diagnostics of `apply_move` (lines 100, 108 and 118) are output only and are not modelled.
- Python floats: `-inf` and `inf` are the only non-integer scores the engine produces. The model uses the extended integers in `Scores` in their place, so float rounding does not arise.
- Sides are the `Color` datatype, not the strings `'white'` and `'black'`. `get_all_moves` called with any other string (an empty move list) is not modelled.
- The unused locals `pawn_locations` and `idx` of `get_all_moves` are not modelled.
- Search.AlphaBeta: it requires a well-formed position (equal list lengths per side), so that `pop` inside `apply_move` can never raise anywhere in the tree. On an ill-formed position the engine may raise `IndexError`, and that error path is not modelled.
- Search.GetBestMove: it requires a well-formed position, for the same reason as `AlphaBeta`.
- Apply.ApplyMove: it requires `Applicable`, which holds exactly when `pop` does not raise. The `IndexError` path is not modelled.
- Pawn moves are straight-line code in the engine, with no loop, so `PawnMoves` is a function that the dispatcher calls directly.
- Landing on the board is proved per white piece (`WhitePieceMovesLand`), not for the whole of `AllMoves(White, p)`.
- Black's moves have no such property, because of the capture test described above.
- Search.GetBestMove: its contract ties the result to `Lowest` of the unpruned root scores. What that choice means is stated by `Search.BestMoveChoice`.
- Search.MaxValue, Search.MinValue, Search.LowestMove: these are the loops of `minimax` and `get_best_move`, split out as methods. They receive the move list and, as a ghost argument, the unpruned value of every child.
