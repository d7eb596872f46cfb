# Chess move generation: a verified model

This project models the move-generation core of a small Rust chess server.
The server has two engines for generating moves:

- **The array engine** (`src/models/board.rs`, with `get_all_moves` from
  `src/chess/helpers.rs`). It keeps a board of 64 optional pieces and the side
  to move. It builds move lists per piece kind and moves a piece only when that
  move is legal for the side to move. Kings check capture targets by asking the
  opponent for all of its moves.
- **The bitboard engine** (`src/models/bitboards.rs`). It keeps twelve 64-bit
  occupancy masks, one per piece kind, and two attack masks, one per colour.
  It builds a mask of legal moves per square, and it moves pieces while writing
  the change through to an array board.

The model also covers:

- piece identity and its index order (`src/models/piece.rs`);
- the two hard-coded opening layouts:
  - the array board from `initialize_starting_position` (`src/chess/helpers.rs`);
  - the stand-alone map of masks from `get_initial_bitboards` (`src/chess/bitboards.rs`).

Squares are the numbers 0..63 in row-major order (A1 = 0, H1 = 7, A8 = 56).
Masks are `bv64`. Bit s of a mask stands for square s.

## How the model is organised

- **Pieces**: the piece datatype, the index functions and their round trips.
- **Bits**: `convert_to_bit`, plus facts about single bits of `bv64` masks.
- **Geometry**: distances between squares, and ray, knight and king geometry.
  It also holds the ray-walk specifications that both engines share.
- **Opening**: the standard starting position as a function of the square.
- **ArrayBoard** / **ArrayBoardFacts**: the `Board` class, its move generators,
  and what their results mean.
- **BitboardRules** / **BitboardFacts**: specification functions over the masks,
  and what they mean.
- **BitboardEngine**: the `Bitboards` class. Its methods run the source's loops
  and are proved equal to the BitboardRules functions.
- **Helpers**: `initialize_starting_position`.
- **InitialBitboards**: `get_initial_bitboards` and its builders.

Each imperative source function becomes a method that keeps the original's
loops. The method is proved equal to a specification function. Lemmas then
state what that function means: which squares it includes, and which it
excludes.

## Model

| member | source | states |
|---|---|---|
| Pieces.ToIndex | src/models/piece.rs:93-107 | a piece's index is below 12, and it is below 6 exactly for white pieces |
| Pieces.FromIndex | src/models/piece.rs:111-175 | a piece is returned exactly for indices below 12, and that piece has the given index |
| Pieces.FromIndexOfToIndex | src/models/piece.rs:93-175 | turning a piece into its index and back gives the same piece |
| Pieces.ToIndexOfFromIndex | src/models/piece.rs:93-175 | every index below 12 survives the round trip through a piece |
| Pieces.ToIndexInjective | src/models/piece.rs:93-107 | different pieces have different indices |
| Pieces.InitializeAllPieces | src/models/piece.rs:28-91 | the twelve pieces are listed in index order, so entry i has index i |
| Pieces.ColorToIndex | src/models/piece.rs:177-182 | a colour's index is 0 or 1, and it is 0 exactly for White |
| Pieces.OppositeColor | src/models/piece.rs:184-189 | the opposite colour always differs from the colour |
| Pieces.OppositeColorInvolution | src/models/piece.rs:184-189 | taking the opposite colour twice gives the colour back |
| Pieces.ToIndexInColorBlock | src/models/piece.rs:93-107 | each colour's six pieces fill one block of six consecutive indices |
| Bits.ConvertToBitIsSingleSquare | src/models/bitboards.rs:807-809 | `convert_to_bit(n)` sets exactly bit n |
| BitboardRules.IsSquareOccupiedByBitboard | src/models/bitboards.rs:803-805 | the test is true exactly when the square's bit is set in the mask |
| BitboardRules.IsValidAttack | src/models/bitboards.rs:770-780 | an attack is valid exactly when both squares are on the board and the attacker's mask holds the origin |
| BitboardFacts.OccupantLowest | src/models/bitboards.rs:735-744 | the occupant is the lowest-indexed piece whose mask holds the square |
| BitboardFacts.OccupantNone | src/models/bitboards.rs:735-744 | there is no occupant exactly when no mask holds the square |
| BitboardFacts.OccupantOfDisjoint | src/models/bitboards.rs:735-744 | when the masks are pairwise disjoint, p occupies s exactly when p's mask holds s |
| BitboardFacts.OccupiedByColorOfDisjoint | src/models/bitboards.rs:782-801 | when the masks are disjoint, "occupied by colour c" means the occupant exists and has colour c |
| BitboardFacts.MoveMaskMembers | src/models/bitboards.rs:348-369 | the filtered move mask holds exactly the candidates that pass `is_valid_move` |
| BitboardFacts.AttackMaskMembers | src/models/bitboards.rs:713-731 | the filtered attack mask holds exactly the candidates that pass `is_valid_attack` |
| BitboardFacts.FilterMovesMembers | src/models/bitboards.rs:348-369 | for a real occupant, the move filter keeps exactly the candidates not held by the mover's own colour |
| BitboardFacts.FilterAttacksMembers | src/models/bitboards.rs:713-731 | for a real occupant, the attack filter keeps every candidate |
| BitboardFacts.SlidingMoveTargets | src/models/bitboards.rs:371-427 | a rook, bishop or queen moves to s exactly when s is reached along one of its directions without passing a piece and without landing on its own colour |
| BitboardFacts.SlidingAttackTargets | src/models/bitboards.rs:621-673 | a slider attacks s exactly when s is the first occupied square, or an empty square before it, along one of its directions |
| BitboardFacts.KnightMoveTargets | src/models/bitboards.rs:429-473 | a knight moves to s exactly when s is an L-shape away and not held by its own colour |
| BitboardFacts.KnightAttackTargets | src/models/bitboards.rs:583-619 | a knight attacks exactly the squares an L-shape away |
| BitboardFacts.KingCandidatesExact | src/models/bitboards.rs:475-520 | the king's candidate list holds exactly the adjacent squares that the king guard does not refuse |
| BitboardFacts.KingMoveTargets | src/models/bitboards.rs:475-535 | a king moves to s exactly when s is adjacent, not refused by the opponent's attack mask, and not held by its own colour |
| BitboardFacts.KingAvoidsAttacks | src/models/bitboards.rs:475-535 | no king move lands on a square in the opponent's attack mask |
| BitboardFacts.KingAttackTargets | src/models/bitboards.rs:675-711 | a king attacks exactly its adjacent squares |
| BitboardFacts.WhitePawnCandidatesMembers | src/models/bitboards.rs:270-301 | white pawn candidates: one step onto an empty square, two steps from rank 2 onto an empty square, and the +7 and +9 squares when Black holds them |
| BitboardFacts.BlackPawnCandidatesMembers | src/models/bitboards.rs:303-346 | the black counterpart, with each subtraction guarded against underflow |
| BitboardFacts.WhitePawnMoveTargets | src/models/bitboards.rs:263-301 | a white pawn's legal-move mask is its candidate set minus the squares White holds |
| BitboardFacts.BlackPawnMoveTargets | src/models/bitboards.rs:303-346 | a black pawn's legal-move mask is its candidate set minus the squares Black holds |
| BitboardFacts.WhitePawnJumpsBlocker | src/models/bitboards.rs:283-289 | as written, the double step does not look at the square in between; a blocked pawn can still jump two squares |
| BitboardFacts.WhitePawnCaptureWraps | src/models/bitboards.rs:291-298 | as written, pawn captures have no file guard; the pawn on H2 captures on A4 |
| BitboardFacts.WhitePawnAttackTargets | src/models/bitboards.rs:546-560 | a white pawn attacks exactly the squares +7 and +9 from it |
| BitboardFacts.BlackPawnAttackTargets | src/models/bitboards.rs:562-581 | a black pawn attacks exactly the squares -7 and -9 from it |
| BitboardFacts.LegalMovesAvoidOwn | src/models/bitboards.rs:227-250 | an empty square has no moves, and no legal move lands on a piece of the mover's colour |
| BitboardFacts.ColorAttacksUpToMembers | src/models/bitboards.rs:41-55 | after the first n squares, a colour's attack mask holds s exactly when a piece of that colour on one of those squares attacks s |
| BitboardFacts.AllAttacksMembers | src/models/bitboards.rs:41-55 | a colour's full attack mask is the union of the attacks of every piece of that colour |
| BitboardFacts.KingAvoidsAttackedSquares | src/models/bitboards.rs:29-55 | with freshly computed attack masks, no king move lands on a square that any enemy piece attacks |
| BitboardFacts.MoveAcceptedMeans | src/models/bitboards.rs:58-72 | with disjoint masks, a move is accepted exactly when the origin is occupied and the destination is on the board and not held by the mover's colour |
| BitboardFacts.CapturedIsOpponent | src/models/bitboards.rs:73-82 | a captured piece always belongs to the opponent and stands on the destination |
| BitboardFacts.MoveOccupant | src/models/bitboards.rs:58-98 | after a move, the destination holds the mover, the origin is empty, and every other square is unchanged |
| BitboardFacts.MovePreservesDisjoint | src/models/bitboards.rs:58-98 | a move keeps the twelve masks pairwise disjoint |
| BitboardFacts.MoveKeepsMirror | src/models/bitboards.rs:58-98 | when the masks mirror an array board, they still do after the move and its two write-throughs |
| BitboardFacts.InitialMasksLayout | src/models/bitboards.rs:102-199 | the initial masks are disjoint, and they place every piece of the standard opening |
| BitboardEngine.PositionsMaskMembers | src/models/bitboards.rs:121-127 | the mask built from a list of positions holds exactly the listed squares |
| BitboardEngine.CreateBitboardForPositions | src/models/bitboards.rs:121-127 | the mask that the loop builds holds exactly the listed squares |
| BitboardEngine.PiecePositionsAreStartSquares | src/models/bitboards.rs:129-199 | each piece kind's position list is its set of opening squares, with kings on E1 and E8 |
| BitboardEngine.CreateBitboardForPiece | src/models/bitboards.rs:110-199 | each piece kind's mask holds exactly its opening squares |
| BitboardEngine.CreatePieceBitboards | src/models/bitboards.rs:102-104 | entry i of the twelve masks is the opening mask of piece i |
| BitboardEngine.EmptyBitboard | src/models/bitboards.rs:106-108 | the empty mask holds no square |
| BitboardEngine.InitialOccupiedSquares | src/models/bitboards.rs:102-199 | initially, a square is in some mask exactly when it is on ranks 1-2 or 7-8 |
| BitboardEngine.Bitboards.constructor | src/models/bitboards.rs:18-26 | a new engine holds the opening masks and empty attack masks; its masks are disjoint and place the standard opening |
| BitboardEngine.Bitboards.GetOccupant | src/models/bitboards.rs:735-744 | the scan over the twelve masks returns the specified occupant |
| BitboardEngine.Bitboards.IsSquareOccupiedByColor | src/models/bitboards.rs:782-801 | the square is occupied by colour c exactly when one of c's six masks holds it |
| BitboardEngine.Bitboards.IsValidMove | src/models/bitboards.rs:747-767 | a move is valid exactly when both squares are on the board, the mover's mask holds the origin, and the destination is not held by the mover's colour |
| BitboardEngine.Bitboards.IsSquareDefended | src/models/bitboards.rs:252-261 | a square is defended exactly when the defending colour's attack mask holds it |
| BitboardEngine.Bitboards.CreateLegalMovesBitboard | src/models/bitboards.rs:348-369 | the result holds exactly the candidate squares that pass `is_valid_move` |
| BitboardEngine.Bitboards.CreateLegalAttacksBitboard | src/models/bitboards.rs:713-731 | the result holds exactly the candidates, provided the origin is in the attacker's mask |
| BitboardEngine.Bitboards.WhitePawnPushes | src/models/bitboards.rs:270-289 | the one-step and two-step pushes, each offered only onto an empty square |
| BitboardEngine.Bitboards.WhitePawnCaptures | src/models/bitboards.rs:291-298 | the pushes, followed by +7 and +9 when the opponent holds them |
| BitboardEngine.Bitboards.GetWhitePawnMoves | src/models/bitboards.rs:270-301 | the white pawn's candidates passed through the move filter |
| BitboardEngine.Bitboards.BlackPawnPushes | src/models/bitboards.rs:303-325 | the black pushes, each guarded against underflow and offered only onto an empty square |
| BitboardEngine.Bitboards.BlackPawnCaptures | src/models/bitboards.rs:327-341 | the pushes, followed by -7 and -9 when they do not underflow and the opponent holds them |
| BitboardEngine.Bitboards.GetBlackPawnMoves | src/models/bitboards.rs:303-346 | the black pawn's candidates passed through the move filter |
| BitboardEngine.Bitboards.GetPawnMoves | src/models/bitboards.rs:263-268 | the pawn's move mask, as specified for its colour |
| BitboardEngine.Bitboards.DirectionStops | src/models/bitboards.rs:386-402 | a ray stops exactly when its next step would wrap around the board's edge |
| BitboardEngine.Bitboards.WalkMoveRay | src/models/bitboards.rs:381-413 | one direction's walk adds the squares up to and including the first blocker |
| BitboardEngine.Bitboards.GetSlidingMoves | src/models/bitboards.rs:371-427 | the walks of all the piece's directions, in order, passed through the move filter |
| BitboardEngine.Bitboards.KnightLands | src/models/bitboards.rs:433-449 | a knight leap lands exactly when it stays on the board and forms an L-shape |
| BitboardEngine.Bitboards.GetKnightMoves | src/models/bitboards.rs:429-473 | the knight's landing squares, in offset order, passed through the move filter |
| BitboardEngine.Bitboards.KingStepLands | src/models/bitboards.rs:482-495 | a king step lands exactly when it stays on the board and moves one square |
| BitboardEngine.Bitboards.KingAdmits | src/models/bitboards.rs:479-520 | a landing step is admitted unless it enters a square the opponent's mask covers, or captures an enemy that the enemy's own mask covers |
| BitboardEngine.Bitboards.AddKingStep | src/models/bitboards.rs:479-520 | one step of the king loop leaves the rest of the specified candidate list unchanged |
| BitboardEngine.Bitboards.GetKingMoves | src/models/bitboards.rs:475-535 | the admitted king steps, passed through the move filter |
| BitboardEngine.Bitboards.GetWhitePawnAttacks | src/models/bitboards.rs:546-560 | the squares +7 and +9, through the attack filter |
| BitboardEngine.Bitboards.GetBlackPawnAttacks | src/models/bitboards.rs:562-581 | the squares -7 and -9 that do not underflow, through the attack filter |
| BitboardEngine.Bitboards.GetPawnAttacks | src/models/bitboards.rs:539-544 | the pawn's attack mask, as specified for its colour |
| BitboardEngine.Bitboards.GetKnightAttacks | src/models/bitboards.rs:583-619 | the knight's landing squares, through the attack filter |
| BitboardEngine.Bitboards.WalkAttackRay | src/models/bitboards.rs:632-661 | one direction's attack walk adds the squares up to and including the first occupied square |
| BitboardEngine.Bitboards.GetSlidingAttacks | src/models/bitboards.rs:621-673 | the attack walks of all the piece's directions, through the attack filter |
| BitboardEngine.Bitboards.GetKingAttacks | src/models/bitboards.rs:675-711 | all landing king steps, through the attack filter |
| BitboardEngine.Bitboards.GetAttacks | src/models/bitboards.rs:216-225 | the occupant's attack mask, dispatched on its piece kind |
| BitboardEngine.Bitboards.GetLegalMoves | src/models/bitboards.rs:227-250 | the occupant's legal-move mask, or 0 for an empty square |
| BitboardEngine.Bitboards.AddAttacksOf | src/models/bitboards.rs:44-52 | one square's step: its piece's attacks are or-ed into that piece's colour mask |
| BitboardEngine.AttacksAfterSquareMeans | src/models/bitboards.rs:41-55 | each step extends both colour masks from the first m squares to the first m+1 |
| BitboardEngine.Bitboards.GetAllAttacks | src/models/bitboards.rs:41-55 | the attack masks are the union, per colour, of the attacks of all 64 squares |
| BitboardEngine.Bitboards.ListLegalMoves | src/models/bitboards.rs:32-35 | entry o of the list is the legal-move mask of square o, for every o |
| BitboardEngine.Bitboards.GetAllLegalMoves | src/models/bitboards.rs:29-38 | the attack masks are refreshed first, then every square's legal-move mask is listed in square order |
| BitboardEngine.Bitboards.CapturePiece | src/models/bitboards.rs:73-82 | an enemy piece on the destination loses that bit, and nothing else changes |
| BitboardEngine.Bitboards.MovePieceBits | src/models/bitboards.rs:84-86 | the mover's bit leaves the origin and is set on the destination |
| BitboardEngine.Bitboards.MovePiece | src/models/bitboards.rs:58-98 | an accepted move updates the masks and writes both squares to the board, keeping the masks disjoint and mirrored; a refused move changes nothing |
| ArrayBoard.LegalMoves | src/models/board.rs:13-29 | a square that is empty, or holds the other colour, has no moves |
| ArrayBoard.KnightGuard | src/models/board.rs:197-207 | the knight's file and rank test is exactly the L-shape |
| ArrayBoard.RookGuard | src/models/board.rs:152-157 | the rook's file test is exactly the edge-wrap test for rook directions |
| ArrayBoard.BishopGuard | src/models/board.rs:250-259 | the bishop's diagonal test is exactly the edge-wrap test for diagonals |
| ArrayBoard.QueenGuard | src/models/board.rs:303-315 | the queen's combined test is exactly the edge-wrap test |
| ArrayBoard.Board.constructor | src/chess/helpers.rs:178-181 | a board holds the given squares and side to move |
| ArrayBoard.Board.GetLegalMoves | src/models/board.rs:13-29 | the dispatch on the piece kind computes the specified move list |
| ArrayBoard.Board.MovePiece | src/models/board.rs:31-42 | a legal move by the side to move relocates the piece and passes the turn; anything else changes nothing |
| ArrayBoard.Board.ToggleTurnColor | src/models/board.rs:44-49 | the side to move flips, and the squares stay the same |
| ArrayBoard.Board.IsValidMove | src/models/board.rs:51-63 | a move is valid exactly when the origin holds a piece of the side to move and the destination is among its legal moves |
| ArrayBoard.Board.UpdateSquare | src/models/bitboards.rs:87-88 | a single square is overwritten, and nothing else changes |
| ArrayBoard.Board.GetPawnPushes | src/models/board.rs:65-96 | the one-step push onto an empty square, then the double step from the start rank |
| ArrayBoard.Board.AddPawnCaptures | src/models/board.rs:98-133 | the two diagonal captures of enemy pieces, when both diagonals can be computed |
| ArrayBoard.Board.GetPawnMoves | src/models/board.rs:65-135 | the pawn's pushes followed by its captures |
| ArrayBoard.Board.GetRookMoves | src/models/board.rs:137-184 | the rook's ray walks in the source's direction order |
| ArrayBoard.Board.RookStops | src/models/board.rs:152-157 | the rook's stop test is the edge-wrap test |
| ArrayBoard.Board.GetKnightMoves | src/models/board.rs:186-233 | the knight's landing squares that its own colour does not hold, in offset order |
| ArrayBoard.Board.KnightLands | src/models/board.rs:191-229 | a knight leap lands exactly when it is on the board, L-shaped, and not onto its own colour |
| ArrayBoard.Board.GetBishopMoves | src/models/board.rs:235-286 | the bishop's ray walks in the source's direction order |
| ArrayBoard.Board.BishopStops | src/models/board.rs:250-259 | the bishop's stop test is the edge-wrap test |
| ArrayBoard.Board.GetQueenMoves | src/models/board.rs:288-342 | the queen's ray walks in the source's direction order |
| ArrayBoard.Board.QueenStops | src/models/board.rs:303-315 | the queen's stop test is the edge-wrap test |
| ArrayBoard.Board.GetKingMoves | src/models/board.rs:344-429 | the king's steps that its guard admits, in offset order |
| ArrayBoard.Board.KingEnters | src/models/board.rs:349-425 | a king step is admitted onto an empty square, or onto an enemy that no opponent move reaches |
| ArrayBoard.Board.IsDefended | src/models/board.rs:397-416 | the defence test matches its specification on the board with the target removed |
| ArrayBoard.Board.AnyReaches | src/models/board.rs:406-410 | the scan finds the square exactly when some move list contains it |
| ArrayBoard.GetAllMoves | src/chess/helpers.rs:7-21 | the move lists of all 64 squares, in square order |
| ArrayBoardFacts.AllMovesEntries | src/chess/helpers.rs:7-21 | there are 64 entries, and entry j is square j's move list |
| ArrayBoardFacts.DefendedMeans | src/models/board.rs:397-416 | an enemy is defended exactly when, with it removed, some opponent move reaches its square |
| ArrayBoardFacts.LegalSlidingMoves | src/models/board.rs:137-342 | a rook, bishop or queen moves to d exactly when d is reached along one of its directions with no piece in between and not onto its own colour |
| ArrayBoardFacts.LegalKnightMoves | src/models/board.rs:186-233 | a knight moves to d exactly when d is on the board, L-shaped, and not held by its own colour |
| ArrayBoardFacts.LegalKingMoves | src/models/board.rs:344-429 | a king moves to d exactly when d is adjacent and the king guard admits it |
| ArrayBoardFacts.LegalPawnMoves | src/models/board.rs:65-135 | a pawn's move list holds exactly its pushes and its enemy-capturing diagonals |
| ArrayBoardFacts.PawnDoubleStepOntoOccupied | src/models/board.rs:78-96 | as written, the double step checks only the middle square; a pawn can land on its own piece |
| ArrayBoardFacts.PawnCaptureAcrossEdge | src/models/board.rs:98-133 | as written, captures have no file guard; the pawn on H2 captures on A4 |
| ArrayBoardFacts.LegalMovesOwner | src/models/board.rs:13-29 | a move can only exist when the origin holds a piece of the requested colour |
| ArrayBoardFacts.LegalMovesOnBoard | src/models/board.rs:13-29 | every listed move is on the board and differs from the origin |
| ArrayBoardFacts.LegalMovesAvoidOwn | src/models/board.rs:137-429 | no non-pawn piece moves onto its own colour |
| ArrayBoardFacts.SlidingAvoidOwn | src/models/board.rs:137-342 | no slider moves onto its own colour |
| ArrayBoardFacts.ValidMoveMeans | src/models/board.rs:51-63 | a valid move starts from a piece of the side to move and ends on a different square of the board |
| Geometry.KingShapeIsDistanceOne | src/models/bitboards.rs:482-495 | the king's test is exactly a Chebyshev distance of 1 |
| Geometry.RayMovesExact | src/models/board.rs:137-184 | a ray walk's move list holds exactly the slide targets beyond the current distance |
| Geometry.RayAttacksExact | src/models/bitboards.rs:632-661 | a ray walk's attack list holds exactly the attack targets beyond the current distance |
| Geometry.SlidingMovesExact | src/models/bitboards.rs:371-427 | the directions' walks together hold exactly the slide targets of those directions |
| Geometry.SlidingAttacksExact | src/models/bitboards.rs:621-673 | the directions' attack walks together hold exactly their attack targets |
| Geometry.KnightLeapsExact | src/models/bitboards.rs:429-473 | the eight knight offsets reach exactly the on-board L-shaped squares |
| Geometry.KingStepsExact | src/models/bitboards.rs:675-711 | the king offsets reach exactly the on-board adjacent squares |
| Opening.StartingPieceSquares | src/chess/helpers.rs:23-182 | a square holds piece p in the opening exactly when it is one of p's opening squares |
| Opening.StartingColors | src/chess/helpers.rs:23-182 | ranks 1-2 hold white pieces, ranks 7-8 hold black pieces, and the rest is empty |
| Opening.StartingPieceCount | src/chess/helpers.rs:23-182 | the opening has 32 pieces |
| Helpers.StartingSquares | src/chess/helpers.rs:24-175 | the 32 writes into the empty board produce the standard opening, square by square |
| Helpers.InitializeStartingPosition | src/chess/helpers.rs:23-182 | a fresh board holding the standard opening, with White to move |
| Helpers.StartingBoardPieces | src/chess/helpers.rs:23-182 | the starting board holds 32 pieces on ranks 1-2 and 7-8, with White's on ranks 1-2 |
| InitialBitboards.InitialSquaresAgree | src/chess/bitboards.rs:79-201 | every mask except the king's matches the opening; the king's does not |
| InitialBitboards.KingOnQueenSquare | src/chess/bitboards.rs:165-201 | each colour's king and queen are put on the same square, D1 or D8 |
| InitialBitboards.CreatePawnRange | src/chess/bitboards.rs:86-100 | the loop sets exactly the bits from first to last |
| InitialBitboards.CreatePawnBitboard | src/chess/bitboards.rs:79-100 | the pawn mask holds exactly rank 2 for White, or rank 7 for Black |
| InitialBitboards.CreateRookBitboard | src/chess/bitboards.rs:102-121 | the rook mask holds exactly A1 and H1, or A8 and H8 |
| InitialBitboards.CreateKnightBitboard | src/chess/bitboards.rs:123-142 | the knight mask holds exactly B1 and G1, or B8 and G8 |
| InitialBitboards.CreateBishopBitboard | src/chess/bitboards.rs:144-163 | the bishop mask holds exactly C1 and F1, or C8 and F8 |
| InitialBitboards.CreateQueenBitboard | src/chess/bitboards.rs:165-182 | the queen mask holds exactly D1, or D8 |
| InitialBitboards.CreateKingBitboard | src/chess/bitboards.rs:184-201 | as written, the king mask holds exactly D1, or D8 |
| InitialBitboards.CreateBitboardForPiece | src/chess/bitboards.rs:68-77 | each piece kind gets exactly the squares its builder sets |
| InitialBitboards.PiecesBelowSize | src/models/piece.rs:28-91 | the first n pieces of the index list are n distinct pieces |
| InitialBitboards.AllPiecesMembers | src/models/piece.rs:28-91 | every piece is one of the twelve, and there are exactly twelve |
| InitialBitboards.GetInitialBitboards | src/chess/bitboards.rs:8-65 | the map has exactly the twelve piece kinds as keys, each mapped to its builder's mask |
| InitialBitboards.KingMaskIsQueenMask | src/chess/bitboards.rs:184-201 | in the returned map, each colour's king mask and queen mask overlap on D1 or D8 |

## Left out

- HTTP handlers, JSON (serde) and the async runtime are not modelled. They only call into the engines.
- `print_bitboard` (src/models/bitboards.rs:201-212) and the `println!` traces are left out. They are output only.
- The `Positions` enum (`src/models/position.rs`) is not part of this model. Its squares are the numbers 0..63 in row-major order. `from_index` is taken to succeed exactly below 64, and `to_index` is the inverse.
- En passant, promotion, castling, check and pins are not modelled, because the source does not implement them. The king's `is_checked` flag (src/models/bitboards.rs:236-244) is computed and never read. The model computes it and drops it too.
- BitboardEngine.Bitboards.GetLegalMoves, GetAllLegalMoves and ListLegalMoves require that no white pawn stands on square 55 or above. There, the source shifts `1u64` by 64 or more, which panics in a debug build; the model treats that as a precondition.
- Bits.ConvertToBit requires its argument to be below 64, for the same reason.
- The source's `u8` squares and `i8` offsets become unbounded integers. Every index the source computes is checked against 0..63 before use, except the pawn probes named above, so no wrap-around is reachable.
- `Board::update_square` is not part of this model's source. ArrayBoard.Board.UpdateSquare models it as a plain write of one square.
- `Piece.bitboard` is left out. Every piece the core builds has the value 0 there, and the core never reads it.
- Rust's `HashMap<Piece, u64>` is modelled as a Dafny `map`, so insertion order is not modelled.
- Rust's `Vec`/array fields are modelled as `seq` fields that the methods reassign. Aliasing between boards is not modelled.
- Some source functions become more than one method, so that each proof stays small:
  - white pawn moves: WhitePawnPushes, then WhitePawnCaptures;
  - black pawn moves: BlackPawnPushes, then BlackPawnCaptures;
  - array pawn moves: GetPawnPushes, then AddPawnCaptures;
  - ray walks: WalkMoveRay and WalkAttackRay;
  - one king step: KingAdmits and AddKingStep;
  - one square of `get_all_attacks`: AddAttacksOf;
  - the loop of `get_all_legal_moves`: ListLegalMoves;
  - the two halves of `move_piece`: CapturePiece and MovePieceBits.

  The order of effects is the source's.
- ArrayBoard.Board.GetKingMoves keeps the source's choice of opponent. The source builds the opponent's moves from the board's `turn_color`, not from the colour passed in.

## Findings

| source | as written | input that shows it | evidently intended | confidence | as-written member | corrected member |
|---|---|---|---|---|---|---|
| src/chess/bitboards.rs:191-201 | the white and black king masks set D1 and D8, the queens' squares | `get_initial_bitboards()`: the White King and White Queen masks are both `1 << 3` | kings on E1 and E8, as `create_king_bitboard` in src/models/bitboards.rs:194-199 places them | not executed | InitialBitboards.KingMaskIsQueenMask | BitboardEngine.CreatePieceBitboards |
