# A verified model of the AI-checkers engine core

This project models the core of the AI-checkers engine in Dafny and proves
properties of that model. The core is four Python files:

- `piece.py`: the four piece classes and the dark-cell check.
- `board.py`: the 8x8 board. It is decoded from eight row words of 4-bit codes and encoded back to them. It also gives the list of pieces and the material balance.
- `state.py`: the search node. It copies turn, level and the end-of-game flag from its board, builds a string key, wraps the successor boards into new nodes and memoises the balance.
- `search_algorithm.py`: fail-hard alpha-beta search over those nodes. White maximises and Black minimises.

The model has six modules:

- `Wrappers`: Option and Result, standing for Python's `None` and for raised exceptions.
- `Nibbles`: the hexadecimal digits of a row word.
- `PieceTypes` (`pieces.dfy`)
- `Boards` (`board.dfy`)
- `States` (`state.dfy`)
- `Search` (`search.dfy`)

A board is a value: the `Board` datatype with a `Grid` of cells. Each cell either is empty or holds a piece standing on its own dark cell. A `State` is a class, because `reset_level`, `balance`, `clean_cached_board` and the search change its fields in place.

The search is specified in three layers:

1. `Search`, `MaxScan` and `MinScan` are functions that give what the recursion computes: the value and the child it stores as `next_move`.
2. `Minimax` is plain depth-bounded minimax. It is an independent reference definition.
3. The methods `AlphaBetaWindow`, `MaxChildren`, `MinChildren` and `AlphaBeta` work on `State` objects and are proved equal to the functions.

The main theorems:

- On trees whose expanded nodes have children (`Expandable`), inside a window `alpha < beta`, a leaf returns its minimax value and an expanded node returns its minimax value clamped to the window.
- On such trees, from the initial window the search returns minimax exactly. At an expanded root, `next_move` is the first child that attains it; at a leaf root it is left as it was.
- A loop that stops before its last child has been cut off: it returns beta (White) or alpha (Black), and the children after the stopping point are never searched.

Modelling choices:

- **Scores are integers in tenths.** A man is 10, a king 16, the win/loss sentinel 1000 is 10000, and the window bound 999999 is 9999990. Scaling by 10 keeps every comparison of exact values.
- **Row words are unbounded naturals.** The decoder reads bits 28 to 31 after shifting the word left by 4 per column, so column `c` is nibble `7 - c` of the word, whatever its width. `Nib` and `Nibble` read it that way; `Horner` packs nibbles.
- **Missing interfaces are abstract fields of `Board`.** `state.py` uses `board.turn`, `board.level`, `board.did_game_end()` and `board.get_next_boards()`, and `board.py` defines none of them. They become the fields `turn`, `level`, `ended` and `successors` of the `Board` datatype. Because `Board` is an inductive datatype, every successor tree in the model is finite, whereas the game graph need not be (kings can move back and forth without the game ending). No theorem depends on this: `Search` and `Minimax` only look a bounded depth ahead.
- **Other names the code uses but never defines are taken as meant.**
  - `state.py` and `search_algorithm.py` compare against `Color.WHITE`, which no file defines. The model uses the enumeration `Colour`.
  - `board.py:65` reads `piece.colour`, an attribute the piece classes never set. The model gives every piece a colour.
  - `search_algorithm.py:15` calls `generate_next_states()`, which `State` lacks. The model uses the `next_states` property directly.
- **A `State` remembers its board.** Each `State` has a ghost constant `origin`, the board it was built from. `Valid()` ties the copied fields, the cached board and the memoised value to it.
- **Loops in their own methods.** The inner loop of `Board.__init__` is the method `DecodeRow`. The loop of `Board.balance` is `BalanceOfPieces`. The two colour branches of `_alpha_beta` are `MaxChildren` and `MinChildren`.

## Model

| member | source | states |
|---|---|---|
| PieceTypes.Construct | piece.py:5-11 | a piece is created exactly on a dark cell (odd coordinate sum) and keeps the given colour, kind and coordinates; a light cell gives the NotAllowedCell error |
| PieceTypes.ConstructAsWritten | piece.py:30-32 | as written every king construction fails with the argument error, and men behave as in Construct |
| PieceTypes.KingOnDarkCellRefusedAsWritten | piece.py:30-32 | on every dark cell the as-written king constructor fails while the corrected one succeeds |
| PieceTypes.Symbol | piece.py:14-48 | the printed letter is lower case exactly for men, upper case exactly for kings, and `w`/`W` exactly for White |
| PieceTypes.SymbolInjective | piece.py:14-48 | two pieces print alike exactly when they have the same colour and kind |
| Boards.Code | board.py:40-49 | a cell's 4-bit code is the empty code 0x8 exactly when the cell is empty, and every code is below 16 |
| Boards.Decode | board.py:6-30 | the grid Board(board_repr) builds, or NotAllowedCell; its contract is carried by Boards.FromRepr (the constructor's loop computes it), Boards.DecodeFailsOnLightCell (it fails exactly when a piece code sits on a light cell) and Boards.DecodeEncode (it inverts Encode) |
| Boards.DecodeRow | board.py:17-30 | decoding one row word succeeds exactly when every column's code is accepted by its piece constructor; the row then has 8 cells, each the decoded cell of its column; otherwise the error is NotAllowedCell |
| Boards.FromRepr | board.py:6-30 | the constructor's loop over the eight words builds exactly the grid of Decode, or raises Decode's error |
| Boards.DecodeReadsCodeTable | board.py:19-29 | after a successful decode, codes 2, 3, 0xA and 0xB give a white man, white king, black man and black king on that cell, and every other code gives an empty cell |
| Boards.DecodeFailsOnLightCell | board.py:16-30 | decoding fails exactly when some piece code sits on a light cell |
| Boards.RowWord | board.py:38-51 | the row word of eight cells is below 2^32 and its nibble for column c is the code of cell c |
| Boards.Encode | board.py:32-52 | board_repr is eight 32-bit words whose nibbles are the codes of the cells |
| Boards.BoardRepr | board.py:32-52 | the OR-and-shift loop computes exactly Encode |
| Boards.DecodeEncode | board.py:6-52 | decoding the encoding of any board gives the same board back |
| Boards.EncodeDecodeNormalises | board.py:6-52 | encoding after a successful decode keeps every piece code and turns every unknown code into the empty code |
| Boards.EncodeDecodeIdentity | board.py:6-52 | on 32-bit words with only known codes and pieces only on dark cells, encoding after decoding is the identity |
| Boards.InitialBoardRoundTrip | board.py:106-122 | the starting position of test_repr_gen decodes, and its board_repr is the same eight words again |
| Boards.InitialNibble | board.py:107-115 | the starting position holds black men on the dark cells of rows 0 to 2, white men on those of rows 5 to 7, and nothing elsewhere |
| Boards.PiecesAreOccupiedCellsInOrder | board.py:54-59 | the pieces list holds exactly the pieces on the grid, in strictly increasing row-major order |
| Boards.Pieces | board.py:54-59 | the pieces list; its contract is carried by Boards.PiecesAreOccupiedCellsInOrder: exactly the pieces on the grid, in strictly increasing row-major order |
| Boards.PiecesOfColour | board.py:61-65 | the pieces of one colour; its contract is carried by Boards.PiecesOfColourIsFilter: the order-preserving colour filter of the pieces list |
| Boards.Filter | board.py:61-65 | the colour filter keeps exactly the pieces of that colour and is no longer than its input |
| Boards.PiecesOfColourIsFilter | board.py:61-65 | get_pieces_of_colour is the order-preserving colour filter of the pieces list |
| Boards.MaterialOfPieces | board.py:67-82 | summing the worth of the cells equals summing over the pieces list |
| Boards.BalanceOfPieces | board.py:72-82 | the loop adds 10 tenths per white man, 16 per white king, and subtracts the same for black pieces |
| Boards.Balance | board.py:67-82 | the balance of a board is its material in tenths |
| Boards.EmptyGridBalance | board.py:54-82 | an empty board has no pieces and balance 0 |
| Boards.MaterialSwapNegates | board.py:67-82 | swapping the colours of all pieces negates the balance |
| Boards.MaterialBound | board.py:54-82 | a board holds at most 32 pieces, and its balance lies within 16 tenths per piece and within ±512 tenths |
| Boards.PieceAt | board.py:89-90 | get_piece_at, with Python's negative indices, gives a cell whose piece stands on that cell and is in the pieces list, and every piece of the pieces list on that cell is what it returns |
| Boards.IsEmpty | board.py:84-87 | is_empty holds exactly when get_piece_at gives None, and always holds on a light cell |
| States.Score | state.py:63-73 | at the end of the game the side to move has lost (-1000 for White to move, +1000 for Black); otherwise the board's material, strictly between the sentinels |
| States.HashOfGrid | state.py:21-38 | the board part of the key is 64 letters, the letter of each cell in row-major order |
| States.GridHashInjective | state.py:21-38 | the board part of the key determines every cell |
| States.IntStringInjective | state.py:45 | distinct levels give distinct decimal strings |
| States.HashKeyInjective | state.py:21-47 | two nodes with the same key have the same cells, the same turn and the same level |
| States.State.constructor | state.py:6-19 | the new node copies turn, level and the end flag from its board, caches the board, and has no next move and no memoised value |
| States.State.HashRow | state.py:25-38 | the letters of one row word are the letters of its eight nibbles |
| States.State.Hash | state.py:21-47 | the key is the letters of the cached board's encoding, then `a` or `b` for the turn, then the level in decimal |
| States.State.ResetLevel | state.py:49-52 | the node's level and its cached board's level become 0; nothing else changes |
| States.State.NextStates | state.py:54-61 | one fresh, valid, distinct node per successor board, in order, each holding its board and nothing else |
| States.State.Balance | state.py:63-73 | the score of the node's board; a non-terminal node memoises it on the first call and keeps an existing memo |
| States.State.CleanCachedBoard | state.py:86-87 | the cached board is dropped while the node stays valid |
| Search.LeafTestAsWritten | search_algorithm.py:12-13 | as written the leaf test yields a leaf exactly at depth 0 or below, and raises for every greater depth |
| Search.InnerTestRaisesAsWritten | search_algorithm.py:12 | at depth above 0 the test as written raises, while the corrected test makes the node a leaf exactly when its game has ended |
| Search.Search | search_algorithm.py:10-34 | a leaf returns its balance and stores no move; a stored move is the index of a child |
| Search.MaxScan | search_algorithm.py:17-25 | the White loop either keeps the move it had or stores a child from the current one on |
| Search.MinScan | search_algorithm.py:26-34 | the Black loop either keeps the move it had or stores a child from the current one on |
| Search.MaxStop | search_algorithm.py:17-25 | the number of children the White loop looks at lies between the current child and the number of children |
| Search.MinStop | search_algorithm.py:26-34 | the number of children the Black loop looks at lies between the current child and the number of children |
| Search.MaxStopCutsOff | search_algorithm.py:23-24 | a White loop that stops before its last child returns beta |
| Search.MinStopCutsOff | search_algorithm.py:32-33 | a Black loop that stops before its last child returns alpha |
| Search.SearchWithinWindow | search_algorithm.py:17-34 | an expanded node called with alpha <= beta returns a value within [alpha, beta] |
| Search.Minimax | search_algorithm.py:10-34 | the reference minimax value lies within the win/loss sentinels |
| Search.BestFromIsMaximum | search_algorithm.py:17-25 | BestFrom is the maximum of the children's minimax values: none exceeds it and one attains it |
| Search.WorstFromIsMinimum | search_algorithm.py:26-34 | WorstFrom is the minimum of the children's minimax values: none is below it and one attains it |
| Search.FirstBestIsFirst | search_algorithm.py:20-22 | no child before FirstBest reaches the best value capped at beta |
| Search.FirstWorstIsFirst | search_algorithm.py:29-31 | no child before FirstWorst reaches the worst value floored at alpha |
| Search.SearchIsClampedMinimax | search_algorithm.py:10-34 | with alpha < beta, a leaf returns its minimax value and an expanded node returns minimax clamped to [alpha, beta]; a White node stores a move exactly when minimax beats alpha, namely the first child reaching the best value capped at beta; a Black node symmetrically |
| Search.AlphaBetaIsMinimax | search_algorithm.py:6-8 | from the window (-999999, 999999) the search returns exact minimax, and an expanded root stores the first child that attains it |
| Search.AlphaBetaWindow | search_algorithm.py:10-34 | on a node built from board b, _alpha_beta returns Search(b).value; when Search stores a move, next_move is a fresh node built from that successor; otherwise next_move is unchanged; at an expanded node the memoised value is unchanged |
| Search.MaxChildren | search_algorithm.py:17-25 | the White loop over the child nodes returns the value of MaxScan and sets next_move to the child MaxScan stores; it looks at exactly the MaxStop children, and every child after those is untouched (never searched); when it stops early it returns beta |
| Search.MinChildren | search_algorithm.py:26-34 | the Black loop over the child nodes returns the value of MinScan and sets next_move to the child MinScan stores; it looks at exactly the MinStop children, and every child after those is untouched (never searched); when it stops early it returns alpha |
| Search.AlphaBeta | search_algorithm.py:6-8 | alpha_beta returns the search from the initial window; when that search stores no move (a leaf root, or no child beats the window), next_move is unchanged; on a tree whose expanded nodes have children this is minimax, and next_move is a fresh node built from the first child that attains it |

## Left out

- Floating point: `Board.balance` adds 1 and 1.6 in binary floating point. The model adds exact tenths. Rounding in the source can make two equal balances compare unequal, which could change the stored `next_move` on a tie.
- The back-reference from a piece to its board (`Man.board`) is not modelled; nothing in the core reads it.
- Move generation and the end-of-game test are not in the files of the core. The successors, turn, level and end flag of a board are inputs of the model (the `Board` fields).
- `Board.__str__`, `State.__str__` and the `print` calls of `test_repr_gen`: console output.
- `State._board` is only an accessor of the cached board; the model reads `cachedBoard` directly.
- test.py, game.py, search-algorithm.py and profileReader.py are not part of this model.
- Boards.FromRepr: row words are naturals (`type Word = nat`). A negative Python int would still decode deterministically, through the two's-complement `&`; the model does not cover that input.
- Boards.PiecesOfColour: models the evident intent. As written, `board.py:65` reads `piece.colour`, which no piece class sets, so the source raises AttributeError on any board that holds a piece.
- Boards.FromRepr: requires exactly eight words. With fewer the source leaves the missing rows empty; with more it raises IndexError.
- Boards.PieceAt: requires indices in -8..7. Outside that range the source raises IndexError.
- Boards.IsEmpty: requires indices in -8..7. Outside that range the source raises IndexError.
- States.State.Hash: requires a cached board. Without one the source raises AttributeError on `None`.
- States.State.NextStates: requires a cached board. Without one the source raises AttributeError on `None`.
- States.State.Balance: requires a terminal node, a memoised value or a cached board. Otherwise the source raises AttributeError on `None`.
- Search.AlphaBetaWindow: requires a node whose balance can be read at a leaf and which still holds its board when expanded (`Searchable`). Otherwise the source raises AttributeError.
- Search.AlphaBetaWindow: does not state that the new `next_move` node is itself valid. It only states which successor board it was built from.
- Search.AlphaBeta: the minimax equality is stated only under `Expandable`, that is, for trees whose expanded nodes have at least one child. Where an expanded node has no successors the source returns alpha (White) or beta (Black) with no move; `Search` models that case too.
- States.State.ResetLevel: modelled on the node's own copy of its board. In the source the board object may be shared with other nodes, and they would see its level change too. This aliasing is not modelled. The model also takes a board's successor list as independent of its level: after ResetLevel the successor boards keep the levels they had.
- States.State.NextStates: the model calls it once per expansion. The source evaluates the `next_states` property once per loop, which gives the same fresh nodes.

## Findings

| source | as written | input that shows it | evidently intended | confidence | as-written member | corrected member |
|---|---|---|---|---|---|---|
| piece.py:30-32 | `King.__init__` passes row, column and board on to `object.__init__`, which takes no arguments, so every king construction raises TypeError; decoding any board word with a king code (3 or 0xB) therefore fails | a white king on the dark cell (0, 1): Construct as written for White, King, 0, 1 | kings are created like men: refused on a light cell, otherwise stored with their coordinates | high, not executed | PieceTypes.ConstructAsWritten, PieceTypes.KingOnDarkCellRefusedAsWritten | PieceTypes.Construct |
| search_algorithm.py:12 | `root_state.is_terminal()` calls the bool that `State.__init__` stores in `is_terminal`, so every search with depth 1 or more raises TypeError | alpha_beta on any node with depth 1 | read the stored flag: a node is a leaf at depth 0 or when its game has ended | high, not executed | Search.LeafTestAsWritten, Search.InnerTestRaisesAsWritten | Search.Search |
