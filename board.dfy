/**
 * The board of board.py: an 8x8 grid of cells, each empty or holding a
 * piece, decoded from and encoded to eight row words of 4-bit codes
 * (column 0 in the most significant nibble of the low 32 bits), with the
 * piece queries and the material balance.
 *
 * Board.turn, Board.level, Board.did_game_end and Board.get_next_boards are
 * used by state.py but are not in board.py; they are the abstract fields of
 * the Board datatype below.
 */
module Boards {
  import opened Wrappers
  import opened PieceTypes
  import opened Nibbles

  /** One row word of the compact representation. */
  type Word = nat

  type Cell = Option<Piece>

  /** A piece stands on the dark cell it was created on. */
  predicate Placed(cell: Cell, row: int, col: int) {
    cell.Some? ==> cell.value.row == row && cell.value.col == col && IsDarkCell(row, col)
  }

  predicate IsGrid(g: seq<seq<Cell>>) {
    && |g| == 8
    && (forall r :: 0 <= r < 8 ==> |g[r]| == 8)
    && (forall r, c :: 0 <= r < 8 && 0 <= c < 8 ==> Placed(g[r][c], r, c))
  }

  /** The private list of rows of a Board: always 8x8, as the decoder builds it. */
  type Grid = g: seq<seq<Cell>> | IsGrid(g) witness seq(8, r => seq(8, c => None))

  /** A board position: the grid, and what the successor generator (which
      board.py does not contain) supplies: whose turn it is, the search level,
      whether the game has ended, and the boards one turn later. */
  datatype Board = Board(grid: Grid, turn: Colour, level: int, ended: bool, successors: seq<Board>)

  const EmptyGrid: Grid := seq(8, r => seq(8, c => None))

  // ----- the nibble codes -------------------------------------------------

  const EmptyCode: nat := 0x8
  const WhiteManCode: nat := 0x2
  const WhiteKingCode: nat := 0x3
  const BlackManCode: nat := 0xA
  const BlackKingCode: nat := 0xB

  const PieceCodes: set<nat> := {WhiteManCode, WhiteKingCode, BlackManCode, BlackKingCode}

  /** The code board_repr writes for a cell. */
  function Code(cell: Cell): (code: nat)
    ensures code == EmptyCode <==> cell.None?
    ensures code < 16
  {
    match cell
    case None => EmptyCode
    case Some(p) =>
      match (p.colour, p.kind)
      case (White, Man) => WhiteManCode
      case (White, King) => WhiteKingCode
      case (Black, Man) => BlackManCode
      case (Black, King) => BlackKingCode
  }

  /** What encoding after decoding makes of a code: unknown codes become empty. */
  function Canonical(code: nat): nat {
    if code in PieceCodes then code else EmptyCode
  }

  /** The nibble of column `col` of a row word: `(w << 4*col) & 0xF0000000`, shifted down. */
  function Nibble(w: Word, col: nat): nat
    requires col < 8
  {
    Nib(w, 7 - col)
  }

  // ----- decoding (Board.__init__) ---------------------------------------

  function Lift(r: Result<Piece, PieceError>): Result<Cell, PieceError> {
    match r
    case Success(p) => Success(Some(p))
    case Failure(e) => Failure(e)
  }

  /** The cell one code decodes to at (row, col), through the piece constructor. */
  function DecodeCell(code: nat, row: int, col: int): Result<Cell, PieceError> {
    if code == WhiteManCode then Lift(Construct(White, Man, row, col))
    else if code == WhiteKingCode then Lift(Construct(White, King, row, col))
    else if code == BlackManCode then Lift(Construct(Black, Man, row, col))
    else if code == BlackKingCode then Lift(Construct(Black, King, row, col))
    else Success(None)
  }

  function DecodedCell(words: seq<Word>, row: nat, col: nat): (cell: Cell)
    requires |words| == 8 && row < 8 && col < 8
    ensures Placed(cell, row, col)
  {
    var d := DecodeCell(Nibble(words[row], col), row, col);
    if d.Success? then d.value else None
  }

  function DecodedGrid(words: seq<Word>): (g: Grid)
    requires |words| == 8
  {
    seq(8, r requires 0 <= r < 8 => seq(8, c requires 0 <= c < 8 => DecodedCell(words, r, c)))
  }

  /** No piece code sits on a cell that its constructor refuses. */
  predicate Decodable(words: seq<Word>)
    requires |words| == 8
  {
    forall r, c :: 0 <= r < 8 && 0 <= c < 8 ==> DecodeCell(Nibble(words[r], c), r, c).Success?
  }

  /** The grid Board(board_repr) builds, or the error its constructor raises. */
  function Decode(words: seq<Word>): Result<Grid, PieceError>
    requires |words| == 8
  {
    if Decodable(words) then Success(DecodedGrid(words)) else Failure(NotAllowedCell)
  }

  /** The inner loop of Board.__init__ for one row word: reads the top
      nibble of the low 32 bits, appends the decoded cell and shifts the
      word left by 4, eight times. */
  method DecodeRow(word: Word, rowNumber: nat) returns (r: Result<seq<Cell>, PieceError>)
    ensures r.Success? <==> forall c :: 0 <= c < 8 ==> DecodeCell(Nibble(word, c), rowNumber, c).Success?
    ensures r.Success? ==> |r.value| == 8
    ensures r.Success? ==> forall c :: 0 <= c < 8 ==> r.value[c] == DecodeCell(Nibble(word, c), rowNumber, c).value
    ensures r.Failure? ==> r.error == NotAllowedCell
  {
    var cells: seq<Cell> := [];
    var row := word;
    var columnNumber := 0;
    while columnNumber < 8
      invariant 0 <= columnNumber <= 8 && |cells| == columnNumber
      invariant row == word * Pow16(columnNumber)
      invariant forall c :: 0 <= c < columnNumber ==>
                  DecodeCell(Nibble(word, c), rowNumber, c).Success? &&
                  cells[c] == DecodeCell(Nibble(word, c), rowNumber, c).value
    {
      var piece := Nib(row, 7);
      NibShifted(word, columnNumber, 7 - columnNumber);
      assert piece == Nibble(word, columnNumber);
      var cell: Cell;
      if piece == WhiteManCode {
        var p := Construct(White, Man, rowNumber, columnNumber);
        if p.Failure? {
          assert !DecodeCell(Nibble(word, columnNumber), rowNumber, columnNumber).Success?;
          return Failure(p.error);
        }
        cell := Some(p.value);
      } else if piece == WhiteKingCode {
        var p := Construct(White, King, rowNumber, columnNumber);
        if p.Failure? {
          assert !DecodeCell(Nibble(word, columnNumber), rowNumber, columnNumber).Success?;
          return Failure(p.error);
        }
        cell := Some(p.value);
      } else if piece == BlackManCode {
        var p := Construct(Black, Man, rowNumber, columnNumber);
        if p.Failure? {
          assert !DecodeCell(Nibble(word, columnNumber), rowNumber, columnNumber).Success?;
          return Failure(p.error);
        }
        cell := Some(p.value);
      } else if piece == BlackKingCode {
        var p := Construct(Black, King, rowNumber, columnNumber);
        if p.Failure? {
          assert !DecodeCell(Nibble(word, columnNumber), rowNumber, columnNumber).Success?;
          return Failure(p.error);
        }
        cell := Some(p.value);
      } else {
        cell := None;
      }
      cells := cells + [cell];
      row := row * 16;
      columnNumber := columnNumber + 1;
    }
    return Success(cells);
  }

  /** Board.__init__: decodes the eight row words in turn into the rows of
      the grid, raising the constructor's error on a refused piece. */
  method FromRepr(boardRepr: seq<Word>) returns (r: Result<Grid, PieceError>)
    requires |boardRepr| == 8
    ensures r == Decode(boardRepr)
  {
    var board: seq<seq<Cell>> := [[], [], [], [], [], [], [], []];
    for rowNumber := 0 to 8
      invariant |board| == 8
      invariant forall k :: 0 <= k < rowNumber ==> board[k] == DecodedGrid(boardRepr)[k]
      invariant forall k, c :: 0 <= k < rowNumber && 0 <= c < 8 ==>
                  DecodeCell(Nibble(boardRepr[k], c), k, c).Success?
    {
      var cells := DecodeRow(boardRepr[rowNumber], rowNumber);
      if cells.Failure? {
        assert !Decodable(boardRepr);
        return Failure(cells.error);
      }
      assert cells.value == DecodedGrid(boardRepr)[rowNumber];
      board := board[rowNumber := cells.value];
    }
    assert board == DecodedGrid(boardRepr);
    var grid: Grid := board;
    return Success(grid);
  }

  /** What Board(words) puts on each cell, read off the code table directly. */
  lemma DecodeReadsCodeTable(words: seq<Word>, r: nat, c: nat)
    requires |words| == 8 && r < 8 && c < 8
    requires Decode(words).Success?
    ensures var code := Nibble(words[r], c);
            var cell := Decode(words).value[r][c];
            && (code == WhiteManCode ==> cell == Some(Piece(White, Man, r, c)))
            && (code == WhiteKingCode ==> cell == Some(Piece(White, King, r, c)))
            && (code == BlackManCode ==> cell == Some(Piece(Black, Man, r, c)))
            && (code == BlackKingCode ==> cell == Some(Piece(Black, King, r, c)))
            && (code !in PieceCodes ==> cell == None)
  {
    assert DecodeCell(Nibble(words[r], c), r, c).Success?;
  }

  /** Decoding fails exactly when some piece code sits on a light cell. */
  lemma DecodeFailsOnLightCell(words: seq<Word>)
    requires |words| == 8
    ensures Decode(words).Failure? <==>
            exists r, c :: 0 <= r < 8 && 0 <= c < 8 && Nibble(words[r], c) in PieceCodes && !IsDarkCell(r, c)
  {
    if Decode(words).Failure? {
      var r, c :| 0 <= r < 8 && 0 <= c < 8 && !DecodeCell(Nibble(words[r], c), r, c).Success?;
      assert Nibble(words[r], c) in PieceCodes && !IsDarkCell(r, c);
    }
    if exists r, c :: 0 <= r < 8 && 0 <= c < 8 && Nibble(words[r], c) in PieceCodes && !IsDarkCell(r, c) {
      var r, c :| 0 <= r < 8 && 0 <= c < 8 && Nibble(words[r], c) in PieceCodes && !IsDarkCell(r, c);
      assert !DecodeCell(Nibble(words[r], c), r, c).Success?;
    }
  }

  // ----- encoding (Board.board_repr) -------------------------------------

  function Codes(row: seq<Cell>): (s: seq<nat>)
    ensures AreNibbles(s)
  {
    seq(|row|, i requires 0 <= i < |row| => Code(row[i]))
  }

  lemma PackedRow(row: seq<Cell>)
    requires |row| == 8
    ensures Horner(Codes(row)) < WordLimit
    ensures forall c :: 0 <= c < 8 ==> Nibble(Horner(Codes(row)), c) == Code(row[c])
  {
    HornerBound(Codes(row));
    Pow16Eight();
    forall c | 0 <= c < 8
      ensures Nibble(Horner(Codes(row)), c) == Code(row[c])
    {
      NibOfHorner(Codes(row), 7 - c);
    }
  }

  /** The row word board_repr builds: the codes of the 8 cells, column 0 in
      the most significant nibble. */
  function RowWord(row: seq<Cell>): (w: Word)
    ensures |row| == 8 ==> w < WordLimit
    ensures |row| == 8 ==> forall c :: 0 <= c < 8 ==> Nibble(w, c) == Code(row[c])
  {
    if |row| == 8 then PackedRow(row); Horner(Codes(row))
    else Horner(Codes(row))
  }

  /** board_repr: eight 32-bit words whose nibbles are the codes of the cells. */
  function Encode(g: Grid): (words: seq<Word>)
    ensures |words| == 8
    ensures forall r :: 0 <= r < 8 ==> words[r] < WordLimit
    ensures forall r, c :: 0 <= r < 8 && 0 <= c < 8 ==> Nibble(words[r], c) == Code(g[r][c])
  {
    seq(8, r requires 0 <= r < 8 => RowWord(g[r]))
  }

  /** board_repr as written: ORs each code into the row word and shifts
      left by 4 after every column but the last.  The OR adds, because the
      low nibble is zero after a shift. */
  method BoardRepr(g: Grid) returns (words: seq<Word>)
    ensures words == Encode(g)
  {
    var board: seq<Word> := [0, 0, 0, 0, 0, 0, 0, 0];
    for rowNumber := 0 to 8
      invariant |board| == 8
      invariant forall k :: 0 <= k < rowNumber ==> board[k] == RowWord(g[k])
      invariant forall k :: rowNumber <= k < 8 ==> board[k] == 0
    {
      ghost var row := g[rowNumber];
      for columnNumber := 0 to 8
        invariant |board| == 8
        invariant forall k :: 0 <= k < rowNumber ==> board[k] == RowWord(g[k])
        invariant forall k :: rowNumber < k < 8 ==> board[k] == 0
        invariant board[rowNumber] == Horner(Codes(row[..columnNumber])) * (if columnNumber < 8 then 16 else 1)
      {
        assert Codes(row[..columnNumber + 1]) == Codes(row[..columnNumber]) + [Code(row[columnNumber])];
        assert Codes(row[..columnNumber + 1])[..columnNumber] == Codes(row[..columnNumber]);
        board := board[rowNumber := board[rowNumber] + Code(g[rowNumber][columnNumber])];
        if columnNumber != 7 {
          board := board[rowNumber := board[rowNumber] * 16];
        }
      }
      assert row[..8] == row;
    }
    assert board == Encode(g);
    return board;
  }

  // ----- round trips -----------------------------------------------------

  /** Decoding the encoding of any board gives that board back. */
  lemma DecodeEncode(g: Grid)
    ensures Decode(Encode(g)) == Success(g)
  {
    var words := Encode(g);
    forall r, c | 0 <= r < 8 && 0 <= c < 8
      ensures DecodeCell(Nibble(words[r], c), r, c) == Success(g[r][c])
    {
      assert Placed(g[r][c], r, c);
    }
    assert Decodable(words);
    forall r | 0 <= r < 8
      ensures DecodedGrid(words)[r] == g[r]
    {
      assert forall c :: 0 <= c < 8 ==> DecodedGrid(words)[r][c] == g[r][c];
    }
    assert DecodedGrid(words) == g;
  }

  /** Encoding after decoding keeps every known code and turns every other
      code into the empty code 0x8. */
  lemma EncodeDecodeNormalises(words: seq<Word>)
    requires |words| == 8 && Decode(words).Success?
    ensures forall r, c :: 0 <= r < 8 && 0 <= c < 8 ==>
              Nibble(Encode(Decode(words).value)[r], c) == Canonical(Nibble(words[r], c))
  {
    forall r, c | 0 <= r < 8 && 0 <= c < 8
      ensures Nibble(Encode(Decode(words).value)[r], c) == Canonical(Nibble(words[r], c))
    {
      assert DecodeCell(Nibble(words[r], c), r, c).Success?;
    }
  }

  /** On 32-bit words of known codes with pieces only on dark cells,
      encoding after decoding is the identity. */
  lemma EncodeDecodeIdentity(words: seq<Word>)
    requires |words| == 8
    requires forall r :: 0 <= r < 8 ==> words[r] < WordLimit
    requires forall r, c :: 0 <= r < 8 && 0 <= c < 8 ==>
               Nibble(words[r], c) == EmptyCode || (Nibble(words[r], c) in PieceCodes && IsDarkCell(r, c))
    ensures Decode(words).Success?
    ensures Encode(Decode(words).value) == words
  {
    assert Decodable(words);
    EncodeDecodeNormalises(words);
    var back := Encode(Decode(words).value);
    forall r | 0 <= r < 8
      ensures back[r] == words[r]
    {
      Pow16Eight();
      forall k | 0 <= k < 8
        ensures Nib(back[r], k) == Nib(words[r], k)
      {
        assert Nibble(back[r], 7 - k) == Canonical(Nibble(words[r], 7 - k));
      }
      NibblesDetermine(back[r], words[r], 8);
    }
  }

  /** The starting position of test_repr_gen: black men on the dark cells of
      rows 0 to 2, white men on those of rows 5 to 7. */
  const InitialWords: seq<Word> :=
    [0x8a8a8a8a, 0xa8a8a8a8, 0x8a8a8a8a, 0x88888888, 0x88888888, 0x28282828, 0x82828282, 0x28282828]

  /** The starting position decodes, and encoding it gives the same words back. */
  lemma InitialBoardRoundTrip()
    ensures Decode(InitialWords).Success?
    ensures Encode(Decode(InitialWords).value) == InitialWords
  {
    forall r, c | 0 <= r < 8 && 0 <= c < 8
      ensures Nibble(InitialWords[r], c) == EmptyCode
              || (Nibble(InitialWords[r], c) in PieceCodes && IsDarkCell(r, c))
    {
      InitialNibble(r, c);
    }
    EncodeDecodeIdentity(InitialWords);
  }

  /** Black men (0xA) on the dark cells of rows 0 to 2, white men (0x2) on
      those of rows 5 to 7, and empty cells (0x8) everywhere else. */
  lemma InitialNibble(r: nat, c: nat)
    requires r < 8 && c < 8
    ensures Nibble(InitialWords[r], c)
         == if !IsDarkCell(r, c) || r == 3 || r == 4 then EmptyCode
            else if r < 3 then BlackManCode else WhiteManCode
  {
    var k := 7 - c;
    if r == 0 || r == 2 { BlackOddNibbles(k); }
    else if r == 1 { BlackEvenNibbles(k); }
    else if r == 3 || r == 4 { EmptyNibbles(k); }
    else if r == 6 { WhiteOddNibbles(k); }
    else { WhiteEvenNibbles(k); }
  }

  // The five distinct row words of the starting position, nibble by nibble
  // (k counts from the least significant nibble, that is from column 7).

  lemma BlackOddNibbles(k: nat)
    requires k < 8
    ensures Nib(0x8a8a8a8a, k) == if k % 2 == 0 then 0xA else 8
  {
    match k
    case 0 => assert Nib(0x8a8a8a8a, 0) == 0xA;
    case 1 => assert Nib(0x8a8a8a8a, 1) == 8;
    case 2 => assert Nib(0x8a8a8a8a, 2) == 0xA;
    case 3 => assert Nib(0x8a8a8a8a, 3) == 8;
    case 4 => assert Nib(0x8a8a8a8a, 4) == 0xA;
    case 5 => assert Nib(0x8a8a8a8a, 5) == 8;
    case 6 => assert Nib(0x8a8a8a8a, 6) == 0xA;
    case 7 => assert Nib(0x8a8a8a8a, 7) == 8;
  }

  lemma BlackEvenNibbles(k: nat)
    requires k < 8
    ensures Nib(0xa8a8a8a8, k) == if k % 2 == 0 then 8 else 0xA
  {
    match k
    case 0 => assert Nib(0xa8a8a8a8, 0) == 8;
    case 1 => assert Nib(0xa8a8a8a8, 1) == 0xA;
    case 2 => assert Nib(0xa8a8a8a8, 2) == 8;
    case 3 => assert Nib(0xa8a8a8a8, 3) == 0xA;
    case 4 => assert Nib(0xa8a8a8a8, 4) == 8;
    case 5 => assert Nib(0xa8a8a8a8, 5) == 0xA;
    case 6 => assert Nib(0xa8a8a8a8, 6) == 8;
    case 7 => assert Nib(0xa8a8a8a8, 7) == 0xA;
  }

  lemma EmptyNibbles(k: nat)
    requires k < 8
    ensures Nib(0x88888888, k) == 8
  {
    match k
    case 0 => assert Nib(0x88888888, 0) == 8;
    case 1 => assert Nib(0x88888888, 1) == 8;
    case 2 => assert Nib(0x88888888, 2) == 8;
    case 3 => assert Nib(0x88888888, 3) == 8;
    case 4 => assert Nib(0x88888888, 4) == 8;
    case 5 => assert Nib(0x88888888, 5) == 8;
    case 6 => assert Nib(0x88888888, 6) == 8;
    case 7 => assert Nib(0x88888888, 7) == 8;
  }

  lemma WhiteOddNibbles(k: nat)
    requires k < 8
    ensures Nib(0x82828282, k) == if k % 2 == 0 then 2 else 8
  {
    match k
    case 0 => assert Nib(0x82828282, 0) == 2;
    case 1 => assert Nib(0x82828282, 1) == 8;
    case 2 => assert Nib(0x82828282, 2) == 2;
    case 3 => assert Nib(0x82828282, 3) == 8;
    case 4 => assert Nib(0x82828282, 4) == 2;
    case 5 => assert Nib(0x82828282, 5) == 8;
    case 6 => assert Nib(0x82828282, 6) == 2;
    case 7 => assert Nib(0x82828282, 7) == 8;
  }

  lemma WhiteEvenNibbles(k: nat)
    requires k < 8
    ensures Nib(0x28282828, k) == if k % 2 == 0 then 8 else 2
  {
    match k
    case 0 => assert Nib(0x28282828, 0) == 8;
    case 1 => assert Nib(0x28282828, 1) == 2;
    case 2 => assert Nib(0x28282828, 2) == 8;
    case 3 => assert Nib(0x28282828, 3) == 2;
    case 4 => assert Nib(0x28282828, 4) == 8;
    case 5 => assert Nib(0x28282828, 5) == 2;
    case 6 => assert Nib(0x28282828, 6) == 8;
    case 7 => assert Nib(0x28282828, 7) == 2;
  }

  // ----- pieces and get_pieces_of_colour ---------------------------------

  /** The pieces of row r from column c on, left to right. */
  function RowPieces(g: Grid, r: nat, c: nat): seq<Piece>
    requires r < 8 && c <= 8
    decreases 8 - c
  {
    if c == 8 then []
    else (if g[r][c].Some? then [g[r][c].value] else []) + RowPieces(g, r, c + 1)
  }

  /** The pieces of rows r to 7, in row-major order. */
  function PiecesFrom(g: Grid, r: nat): seq<Piece>
    requires r <= 8
    decreases 8 - r
  {
    if r == 8 then [] else RowPieces(g, r, 0) + PiecesFrom(g, r + 1)
  }

  /** Board.pieces: the comprehension over all rows and cells. */
  function Pieces(g: Grid): seq<Piece> {
    PiecesFrom(g, 0)
  }

  /** The position of a piece's cell in row-major order. */
  function CellIndex(p: Piece): int {
    8 * p.row + p.col
  }

  predicate InRowMajorOrder(ps: seq<Piece>) {
    forall i, j :: 0 <= i < j < |ps| ==> CellIndex(ps[i]) < CellIndex(ps[j])
  }

  predicate OnGrid(g: Grid, p: Piece) {
    0 <= p.row < 8 && 0 <= p.col < 8 && g[p.row][p.col] == Some(p)
  }

  /** Concatenating two ordered lists, all of the first before all of the second. */
  lemma OrderedConcat(a: seq<Piece>, b: seq<Piece>, bound: int)
    requires InRowMajorOrder(a) && InRowMajorOrder(b)
    requires forall i :: 0 <= i < |a| ==> CellIndex(a[i]) < bound
    requires forall j :: 0 <= j < |b| ==> bound <= CellIndex(b[j])
    ensures InRowMajorOrder(a + b)
  {
    forall i, j | 0 <= i < j < |a + b|
      ensures CellIndex((a + b)[i]) < CellIndex((a + b)[j])
    {
      if j < |a| {
      } else if i >= |a| {
        assert (a + b)[i] == b[i - |a|] && (a + b)[j] == b[j - |a|];
      } else {
        assert (a + b)[i] == a[i] && (a + b)[j] == b[j - |a|];
      }
    }
  }

  lemma {:induction false} RowPiecesMembers(g: Grid, r: nat, c: nat)
    requires r < 8 && c <= 8
    decreases 8 - c
    ensures forall p :: p in RowPieces(g, r, c) <==> OnGrid(g, p) && p.row == r && c <= p.col
  {
    if c < 8 {
      RowPiecesMembers(g, r, c + 1);
      var head := if g[r][c].Some? then [g[r][c].value] else [];
      assert RowPieces(g, r, c) == head + RowPieces(g, r, c + 1);
      assert Placed(g[r][c], r, c);
      forall p
        ensures p in RowPieces(g, r, c) <==> OnGrid(g, p) && p.row == r && c <= p.col
      {
        if p.row == r && p.col == c {
          assert OnGrid(g, p) <==> p in head;
        }
      }
    }
  }

  lemma {:induction false} RowPiecesOrdered(g: Grid, r: nat, c: nat)
    requires r < 8 && c <= 8
    decreases 8 - c
    ensures InRowMajorOrder(RowPieces(g, r, c))
  {
    if c < 8 {
      RowPiecesOrdered(g, r, c + 1);
      RowPiecesMembers(g, r, c + 1);
      var head := if g[r][c].Some? then [g[r][c].value] else [];
      var rest := RowPieces(g, r, c + 1);
      assert Placed(g[r][c], r, c);
      assert forall j :: 0 <= j < |rest| ==> rest[j] in rest;
      OrderedConcat(head, rest, 8 * r + c + 1);
    }
  }

  lemma {:induction false} PiecesFromMembers(g: Grid, r: nat)
    requires r <= 8
    decreases 8 - r
    ensures forall p :: p in PiecesFrom(g, r) <==> OnGrid(g, p) && r <= p.row
  {
    if r < 8 {
      RowPiecesMembers(g, r, 0);
      PiecesFromMembers(g, r + 1);
    }
  }

  lemma {:induction false} PiecesFromOrdered(g: Grid, r: nat)
    requires r <= 8
    decreases 8 - r
    ensures InRowMajorOrder(PiecesFrom(g, r))
  {
    if r < 8 {
      RowPiecesOrdered(g, r, 0);
      RowPiecesMembers(g, r, 0);
      PiecesFromOrdered(g, r + 1);
      PiecesFromMembers(g, r + 1);
      var a, b := RowPieces(g, r, 0), PiecesFrom(g, r + 1);
      assert forall i :: 0 <= i < |a| ==> a[i] in a;
      assert forall j :: 0 <= j < |b| ==> b[j] in b;
      OrderedConcat(a, b, 8 * r + 8);
    }
  }

  /** Board.pieces is exactly the occupied cells, in row-major order. */
  lemma PiecesAreOccupiedCellsInOrder(g: Grid)
    ensures forall p :: p in Pieces(g) <==> OnGrid(g, p)
    ensures InRowMajorOrder(Pieces(g))
  {
    PiecesFromMembers(g, 0);
    PiecesFromOrdered(g, 0);
  }

  function RowPiecesOfColour(g: Grid, colour: Colour, r: nat, c: nat): seq<Piece>
    requires r < 8 && c <= 8
    decreases 8 - c
  {
    if c == 8 then []
    else (if g[r][c].Some? && g[r][c].value.colour == colour then [g[r][c].value] else [])
         + RowPiecesOfColour(g, colour, r, c + 1)
  }

  function PiecesOfColourFrom(g: Grid, colour: Colour, r: nat): seq<Piece>
    requires r <= 8
    decreases 8 - r
  {
    if r == 8 then [] else RowPiecesOfColour(g, colour, r, 0) + PiecesOfColourFrom(g, colour, r + 1)
  }

  /** Board.get_pieces_of_colour: its own comprehension over all cells. */
  function PiecesOfColour(g: Grid, colour: Colour): seq<Piece> {
    PiecesOfColourFrom(g, colour, 0)
  }

  /** The order-preserving filter of a list of pieces by colour. */
  function Filter(ps: seq<Piece>, colour: Colour): (r: seq<Piece>)
    ensures forall p :: p in r <==> p in ps && p.colour == colour
    ensures |r| <= |ps|
  {
    if ps == [] then []
    else (if ps[0].colour == colour then [ps[0]] else []) + Filter(ps[1..], colour)
  }

  lemma {:induction false} FilterConcat(a: seq<Piece>, b: seq<Piece>, colour: Colour)
    ensures Filter(a + b, colour) == Filter(a, colour) + Filter(b, colour)
  {
    if a == [] {
      assert a + b == b;
    } else {
      var head := if a[0].colour == colour then [a[0]] else [];
      assert (a + b)[0] == a[0];
      assert (a + b)[1..] == a[1..] + b;
      FilterConcat(a[1..], b, colour);
      calc {
        Filter(a + b, colour);
        head + Filter(a[1..] + b, colour);
        head + (Filter(a[1..], colour) + Filter(b, colour));
        (head + Filter(a[1..], colour)) + Filter(b, colour);
        Filter(a, colour) + Filter(b, colour);
      }
    }
  }

  lemma {:induction false} RowPiecesOfColourFilters(g: Grid, colour: Colour, r: nat, c: nat)
    requires r < 8 && c <= 8
    decreases 8 - c
    ensures RowPiecesOfColour(g, colour, r, c) == Filter(RowPieces(g, r, c), colour)
  {
    if c < 8 {
      RowPiecesOfColourFilters(g, colour, r, c + 1);
      var head := if g[r][c].Some? then [g[r][c].value] else [];
      FilterConcat(head, RowPieces(g, r, c + 1), colour);
      if g[r][c].Some? {
        assert head[1..] == [];
      }
    }
  }

  lemma {:induction false} PiecesOfColourFromFilters(g: Grid, colour: Colour, r: nat)
    requires r <= 8
    decreases 8 - r
    ensures PiecesOfColourFrom(g, colour, r) == Filter(PiecesFrom(g, r), colour)
  {
    if r < 8 {
      RowPiecesOfColourFilters(g, colour, r, 0);
      PiecesOfColourFromFilters(g, colour, r + 1);
      FilterConcat(RowPieces(g, r, 0), PiecesFrom(g, r + 1), colour);
    }
  }

  /** get_pieces_of_colour is the order-preserving filter of pieces. */
  lemma PiecesOfColourIsFilter(g: Grid, colour: Colour)
    ensures PiecesOfColour(g, colour) == Filter(Pieces(g), colour)
  {
    PiecesOfColourFromFilters(g, colour, 0);
  }

  // ----- balance -----------------------------------------------------------

  /** Values are kept in tenths of a man: a man is worth 1 (10 tenths), a king 1.6 (16 tenths). */
  const ManWorth: int := 10
  const KingWorth: int := 16

  /** How many of the pieces have the given colour and kind. */
  function Count(ps: seq<Piece>, colour: Colour, kind: Kind): nat {
    if ps == [] then 0
    else Count(ps[..|ps| - 1], colour, kind) + (if ps[|ps| - 1].colour == colour && ps[|ps| - 1].kind == kind then 1 else 0)
  }

  /** The material balance of a list of pieces in tenths: white men and
      kings count for, black ones against. */
  function MaterialOf(ps: seq<Piece>): int {
    ManWorth * Count(ps, White, Man) + KingWorth * Count(ps, White, King)
    - ManWorth * Count(ps, Black, Man) - KingWorth * Count(ps, Black, King)
  }

  /** What one piece adds to the balance. */
  function Worth(p: Piece): int {
    match (p.colour, p.kind)
    case (White, Man) => ManWorth
    case (White, King) => KingWorth
    case (Black, Man) => -ManWorth
    case (Black, King) => -KingWorth
  }

  function CellWorth(cell: Cell): int {
    match cell
    case None => 0
    case Some(p) => Worth(p)
  }

  /** The worth of the cells of row r from column c on. */
  function RowWorth(g: Grid, r: nat, c: nat): int
    requires r < 8 && c <= 8
    decreases 8 - c
  {
    if c == 8 then 0 else CellWorth(g[r][c]) + RowWorth(g, r, c + 1)
  }

  function GridWorth(g: Grid, r: nat): int
    requires r <= 8
    decreases 8 - r
  {
    if r == 8 then 0 else RowWorth(g, r, 0) + GridWorth(g, r + 1)
  }

  /** The material balance of a board in tenths: the sum of the worth of its cells. */
  function Material(g: Grid): int {
    GridWorth(g, 0)
  }

  lemma MaterialOfSnoc(ps: seq<Piece>, p: Piece)
    ensures MaterialOf(ps + [p]) == MaterialOf(ps) + Worth(p)
  {
    assert (ps + [p])[..|ps + [p]| - 1] == ps;
  }

  lemma {:induction false} CountConcat(a: seq<Piece>, b: seq<Piece>, colour: Colour, kind: Kind)
    ensures Count(a + b, colour, kind) == Count(a, colour, kind) + Count(b, colour, kind)
  {
    if b == [] {
      assert a + b == a;
    } else {
      assert (a + b)[..|a + b| - 1] == a + b[..|b| - 1];
      CountConcat(a, b[..|b| - 1], colour, kind);
    }
  }

  lemma MaterialOfConcat(a: seq<Piece>, b: seq<Piece>)
    ensures MaterialOf(a + b) == MaterialOf(a) + MaterialOf(b)
  {
    CountConcat(a, b, White, Man);
    CountConcat(a, b, White, King);
    CountConcat(a, b, Black, Man);
    CountConcat(a, b, Black, King);
  }

  lemma {:induction false} RowWorthOfPieces(g: Grid, r: nat, c: nat)
    requires r < 8 && c <= 8
    decreases 8 - c
    ensures RowWorth(g, r, c) == MaterialOf(RowPieces(g, r, c))
  {
    if c < 8 {
      RowWorthOfPieces(g, r, c + 1);
      var head := if g[r][c].Some? then [g[r][c].value] else [];
      MaterialOfConcat(head, RowPieces(g, r, c + 1));
      if g[r][c].Some? {
        MaterialOfSnoc([], g[r][c].value);
      }
    }
  }

  lemma {:induction false} GridWorthOfPieces(g: Grid, r: nat)
    requires r <= 8
    decreases 8 - r
    ensures GridWorth(g, r) == MaterialOf(PiecesFrom(g, r))
  {
    if r < 8 {
      RowWorthOfPieces(g, r, 0);
      GridWorthOfPieces(g, r + 1);
      MaterialOfConcat(RowPieces(g, r, 0), PiecesFrom(g, r + 1));
    }
  }

  /** Summing the worth of the cells and summing over the list of pieces agree. */
  lemma MaterialOfPieces(g: Grid)
    ensures Material(g) == MaterialOf(Pieces(g))
  {
    GridWorthOfPieces(g, 0);
  }

  /** The loop of Board.balance: one pass over a list of pieces,
      accumulating each piece's worth into result. */
  method BalanceOfPieces(pieces: seq<Piece>) returns (result: int)
    ensures result == MaterialOf(pieces)
  {
    result := 0;
    for i := 0 to |pieces|
      invariant result == MaterialOf(pieces[..i])
    {
      assert pieces[..i + 1] == pieces[..i] + [pieces[i]];
      MaterialOfSnoc(pieces[..i], pieces[i]);
      var piece := pieces[i];
      if piece.colour == Black && piece.kind == Man {
        result := result - ManWorth;
      } else if piece.colour == Black && piece.kind == King {
        result := result - KingWorth;
      } else if piece.colour == White && piece.kind == Man {
        result := result + ManWorth;
      } else if piece.colour == White && piece.kind == King {
        result := result + KingWorth;
      }
    }
    assert pieces[..|pieces|] == pieces;
  }

  /** Board.balance: the balance of the board's pieces, in tenths. */
  method Balance(g: Grid) returns (result: int)
    ensures result == Material(g)
  {
    result := BalanceOfPieces(Pieces(g));
    MaterialOfPieces(g);
  }

  lemma {:induction false} RowPiecesOfEmptyGrid(r: nat, c: nat)
    requires r < 8 && c <= 8
    decreases 8 - c
    ensures RowPieces(EmptyGrid, r, c) == []
  {
    if c < 8 {
      RowPiecesOfEmptyGrid(r, c + 1);
    }
  }

  lemma {:induction false} PiecesFromEmptyGrid(r: nat)
    requires r <= 8
    decreases 8 - r
    ensures PiecesFrom(EmptyGrid, r) == []
  {
    if r < 8 {
      RowPiecesOfEmptyGrid(r, 0);
      PiecesFromEmptyGrid(r + 1);
    }
  }

  /** An empty board has no pieces and balance 0. */
  lemma EmptyGridBalance()
    ensures Pieces(EmptyGrid) == []
    ensures Material(EmptyGrid) == 0
  {
    PiecesFromEmptyGrid(0);
    MaterialOfPieces(EmptyGrid);
  }

  function SwapPiece(p: Piece): Piece {
    p.(colour := Opponent(p.colour))
  }

  function SwapCell(cell: Cell): Cell {
    match cell
    case None => None
    case Some(p) => Some(SwapPiece(p))
  }

  /** The same board with every piece's colour swapped. */
  function SwapColours(g: Grid): Grid {
    seq(8, r requires 0 <= r < 8 => seq(8, c requires 0 <= c < 8 => SwapCell(g[r][c])))
  }

  function SwapAll(ps: seq<Piece>): (r: seq<Piece>)
    ensures |r| == |ps|
  {
    seq(|ps|, i requires 0 <= i < |ps| => SwapPiece(ps[i]))
  }

  lemma SwapAllConcat(a: seq<Piece>, b: seq<Piece>)
    ensures SwapAll(a + b) == SwapAll(a) + SwapAll(b)
  {
    assert forall i :: 0 <= i < |a| ==> (a + b)[i] == a[i];
    assert forall i :: |a| <= i < |a + b| ==> (a + b)[i] == b[i - |a|];
  }

  lemma {:induction false} RowPiecesSwap(g: Grid, r: nat, c: nat)
    requires r < 8 && c <= 8
    decreases 8 - c
    ensures RowPieces(SwapColours(g), r, c) == SwapAll(RowPieces(g, r, c))
  {
    if c < 8 {
      RowPiecesSwap(g, r, c + 1);
      var head := if g[r][c].Some? then [g[r][c].value] else [];
      SwapAllConcat(head, RowPieces(g, r, c + 1));
      assert SwapColours(g)[r][c] == SwapCell(g[r][c]);
    }
  }

  lemma {:induction false} PiecesFromSwap(g: Grid, r: nat)
    requires r <= 8
    decreases 8 - r
    ensures PiecesFrom(SwapColours(g), r) == SwapAll(PiecesFrom(g, r))
  {
    if r < 8 {
      RowPiecesSwap(g, r, 0);
      PiecesFromSwap(g, r + 1);
      SwapAllConcat(RowPieces(g, r, 0), PiecesFrom(g, r + 1));
    }
  }

  lemma {:induction false} CountSwap(ps: seq<Piece>, colour: Colour, kind: Kind)
    ensures Count(SwapAll(ps), colour, kind) == Count(ps, Opponent(colour), kind)
  {
    if ps != [] {
      assert SwapAll(ps)[..|ps| - 1] == SwapAll(ps[..|ps| - 1]);
      CountSwap(ps[..|ps| - 1], colour, kind);
    }
  }

  /** Swapping the colours of all pieces negates the balance. */
  lemma MaterialSwapNegates(g: Grid)
    ensures Material(SwapColours(g)) == -Material(g)
  {
    PiecesFromSwap(g, 0);
    MaterialOfPieces(g);
    MaterialOfPieces(SwapColours(g));
    var ps := Pieces(g);
    CountSwap(ps, White, Man);
    CountSwap(ps, White, King);
    CountSwap(ps, Black, Man);
    CountSwap(ps, Black, King);
  }

  lemma {:induction false} CountsAddUp(ps: seq<Piece>)
    ensures Count(ps, White, Man) + Count(ps, White, King) + Count(ps, Black, Man) + Count(ps, Black, King) == |ps|
  {
    if ps != [] {
      CountsAddUp(ps[..|ps| - 1]);
    }
  }

  lemma {:induction false} RowPiecesBound(g: Grid, r: nat, c: nat)
    requires r < 8 && c <= 8
    decreases 8 - c
    ensures IsDarkCell(r, c) ==> |RowPieces(g, r, c)| <= (9 - c) / 2
    ensures !IsDarkCell(r, c) ==> |RowPieces(g, r, c)| <= (8 - c) / 2
  {
    if c < 8 {
      RowPiecesBound(g, r, c + 1);
      assert Placed(g[r][c], r, c);
      assert IsDarkCell(r, c) <==> !IsDarkCell(r, c + 1);
    }
  }

  lemma {:induction false} PiecesFromBound(g: Grid, r: nat)
    requires r <= 8
    decreases 8 - r
    ensures |PiecesFrom(g, r)| <= 4 * (8 - r)
  {
    if r < 8 {
      RowPiecesBound(g, r, 0);
      PiecesFromBound(g, r + 1);
    }
  }

  /** At most 32 pieces fit on the dark cells, so the balance stays within
      16 tenths per piece and within 51.2 men either way. */
  lemma MaterialBound(g: Grid)
    ensures |Pieces(g)| <= 32
    ensures -KingWorth * |Pieces(g)| <= Material(g) <= KingWorth * |Pieces(g)|
    ensures -512 <= Material(g) <= 512
  {
    PiecesFromBound(g, 0);
    CountsAddUp(Pieces(g));
    MaterialOfPieces(g);
  }

  // ----- cell queries ----------------------------------------------------

  /** Python list indexing: a negative index counts from the end. */
  function PyIndex(i: int): nat
    requires -8 <= i < 8
  {
    if i < 0 then i + 8 else i
  }

  /** Board.get_piece_at. */
  function PieceAt(g: Grid, row: int, column: int): (cell: Cell)
    requires -8 <= row < 8 && -8 <= column < 8
    ensures Placed(cell, PyIndex(row), PyIndex(column))
    ensures cell.Some? ==> cell.value in Pieces(g)
    ensures forall p :: p in Pieces(g) && p.row == PyIndex(row) && p.col == PyIndex(column) ==> cell == Some(p)
  {
    var cell := g[PyIndex(row)][PyIndex(column)];
    assert Placed(cell, PyIndex(row), PyIndex(column));
    PiecesFromMembers(g, 0);
    assert cell.Some? ==> OnGrid(g, cell.value);
    cell
  }

  /** Board.is_empty. */
  function IsEmpty(g: Grid, row: int, column: int): (empty: bool)
    requires -8 <= row < 8 && -8 <= column < 8
    ensures empty <==> PieceAt(g, row, column) == None
    ensures !IsDarkCell(PyIndex(row), PyIndex(column)) ==> empty
  {
    g[PyIndex(row)][PyIndex(column)] == None
  }
}
