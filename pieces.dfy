/**
 * The draughts pieces of piece.py.  The four classes WhiteMan, BlackMan,
 * WhiteKing and BlackKing become one datatype tagged by colour and kind.
 */
module PieceTypes {
  import opened Wrappers

  datatype Colour = White | Black

  datatype Kind = Man | King

  /** A piece with the cell it was created on (the stored back-reference to
      its board is not modelled). */
  datatype Piece = Piece(colour: Colour, kind: Kind, row: int, col: int)

  /** Why a piece could not be created. */
  datatype PieceError =
    | NotAllowedCell       // the ValueError raised by Man.__init__
    | KingArgumentError    // the TypeError raised by King.__init__ as written

  function Opponent(c: Colour): Colour {
    if c == White then Black else White
  }

  /** A dark (playable) cell: the sum of its coordinates is odd.  Python's
      `%` with divisor 2 agrees with Dafny's on negative sums too. */
  predicate IsDarkCell(row: int, col: int) {
    (row + col) % 2 == 1
  }

  /** Man.__init__, applied to kings as well: a light cell is refused,
      otherwise the piece stores exactly the given coordinates. */
  function Construct(colour: Colour, kind: Kind, row: int, col: int): (r: Result<Piece, PieceError>)
    ensures r.Success? <==> IsDarkCell(row, col)
    ensures r.Success? ==> r.value == Piece(colour, kind, row, col)
    ensures r.Failure? ==> r.error == NotAllowedCell
  {
    if (row + col) % 2 != 1 then Failure(NotAllowedCell)
    else Success(Piece(colour, kind, row, col))
  }

  /** The constructors as piece.py writes them: King.__init__ forwards its
      three arguments to object.__init__, which accepts none, so every king
      construction raises; men are checked as in Construct. */
  function ConstructAsWritten(colour: Colour, kind: Kind, row: int, col: int): (r: Result<Piece, PieceError>)
    ensures kind == King ==> r == Failure(KingArgumentError)
    ensures kind == Man ==> r == Construct(colour, kind, row, col)
  {
    if kind == King then Failure(KingArgumentError)
    else Construct(colour, kind, row, col)
  }

  /** The constructors as written refuse a king on a dark cell that the
      corrected constructor accepts. */
  lemma KingOnDarkCellRefusedAsWritten(colour: Colour, row: int, col: int)
    requires IsDarkCell(row, col)
    ensures ConstructAsWritten(colour, King, row, col).Failure?
    ensures Construct(colour, King, row, col) == Success(Piece(colour, King, row, col))
  {
  }

  /** The `__str__` symbol of each of the four piece classes. */
  function Symbol(p: Piece): (s: char)
    ensures p.kind == Man <==> s in "bw"
    ensures p.kind == King <==> s in "BW"
    ensures p.colour == White <==> s in "wW"
  {
    match (p.colour, p.kind)
    case (Black, Man) => 'b'
    case (White, Man) => 'w'
    case (White, King) => 'W'
    case (Black, King) => 'B'
  }

  /** Two pieces print alike exactly when they have the same colour and kind. */
  lemma SymbolInjective(p: Piece, q: Piece)
    ensures Symbol(p) == Symbol(q) <==> p.colour == q.colour && p.kind == q.kind
  {
  }
}
