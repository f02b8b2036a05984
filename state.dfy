/**
 * The search node of state.py: a State copies turn, level and the terminal
 * flag from the board it wraps, scores itself (a win/loss sentinel or the
 * board's memoised material balance), builds a string key of its position
 * and wraps each successor board into a new State.
 */
module States {
  import opened Wrappers
  import opened PieceTypes
  import opened Nibbles
  import opened Boards

  // ----- scores -----------------------------------------------------------

  /** The win/loss sentinel 1000, in tenths. */
  const WinScore: int := 10000

  /** What State.balance returns for a state built from b: at the end of the
      game the side to move has lost, otherwise the board's material. */
  function Score(b: Board): (s: int)
    ensures b.ended ==> (s == -WinScore <==> b.turn == White)
    ensures b.ended ==> (s == WinScore <==> b.turn.Black?)
    ensures !b.ended ==> s == Material(b.grid)
    ensures !b.ended ==> -WinScore < s < WinScore
    ensures -WinScore <= s <= WinScore
  {
    if !b.ended then MaterialBound(b.grid); Material(b.grid)
    else if b.turn == White then -WinScore
    else WinScore
  }

  // ----- the hash key -----------------------------------------------------

  /** The letters State.hash writes for one nibble code; any other code
      contributes nothing. */
  function HashLetters(code: nat): string {
    if code == EmptyCode then "e"
    else if code == WhiteManCode then "a"
    else if code == BlackManCode then "b"
    else if code == WhiteKingCode then "c"
    else if code == BlackKingCode then "d"
    else ""
  }

  /** The letters of the first n columns of a row word. */
  function RowHashUpTo(w: Word, n: nat): string
    requires n <= 8
  {
    if n == 0 then "" else RowHashUpTo(w, n - 1) + HashLetters(Nibble(w, n - 1))
  }

  function RowHash(w: Word): string {
    RowHashUpTo(w, 8)
  }

  /** The letters of a sequence of row words, in order. */
  function WordsHash(words: seq<Word>): string {
    if words == [] then "" else WordsHash(words[..|words| - 1]) + RowHash(words[|words| - 1])
  }

  function TurnLetter(turn: Colour): char {
    if turn == White then 'a' else 'b'
  }

  function Digit(d: nat): char
    requires d < 10
  {
    "0123456789"[d]
  }

  /** str of a natural number: its decimal digits, without leading zeros. */
  function NatString(n: nat): (s: string)
    ensures |s| >= 1
    ensures forall i :: 0 <= i < |s| ==> s[i] in "0123456789"
  {
    if n < 10 then [Digit(n)] else NatString(n / 10) + [Digit(n % 10)]
  }

  /** str of an integer. */
  function IntString(i: int): string {
    if i < 0 then "-" + NatString(-i) else NatString(i)
  }

  /** The key State.hash builds from the board words, the turn and the level. */
  function HashKey(words: seq<Word>, turn: Colour, level: int): string {
    WordsHash(words) + [TurnLetter(turn)] + IntString(level)
  }

  /** The letter of one cell: 'e' empty, 'a' white man, 'b' black man,
      'c' white king, 'd' black king. */
  function CellLetter(cell: Cell): char {
    match cell
    case None => 'e'
    case Some(p) =>
      match (p.colour, p.kind)
      case (White, Man) => 'a'
      case (Black, Man) => 'b'
      case (White, King) => 'c'
      case (Black, King) => 'd'
  }

  lemma HashLettersOfCode(cell: Cell)
    ensures HashLetters(Code(cell)) == [CellLetter(cell)]
  {
  }

  /** The letters of an encoded row are the letters of its eight cells. */
  lemma {:induction false} RowHashOfRowWord(row: seq<Cell>, n: nat)
    requires |row| == 8 && n <= 8
    ensures RowHashUpTo(RowWord(row), n) == seq(n, c requires 0 <= c < n => CellLetter(row[c]))
  {
    if n > 0 {
      RowHashOfRowWord(row, n - 1);
      HashLettersOfCode(row[n - 1]);
    }
  }

  /** The letters of the first n of some row words that have eight letters each. */
  lemma {:induction false} WordsHashRows(words: seq<Word>, n: nat)
    requires n <= |words|
    requires forall r :: 0 <= r < |words| ==> |RowHash(words[r])| == 8
    ensures |WordsHash(words[..n])| == 8 * n
    ensures forall r, c :: 0 <= r < n && 0 <= c < 8 ==> WordsHash(words[..n])[8 * r + c] == RowHash(words[r])[c]
  {
    if n > 0 {
      assert words[..n][..n - 1] == words[..n - 1];
      WordsHashRows(words, n - 1);
      assert WordsHash(words[..n]) == WordsHash(words[..n - 1]) + RowHash(words[n - 1]);
    }
  }

  /** The board part of the key is 64 letters, one per cell in row-major order. */
  lemma HashOfGrid(g: Grid)
    ensures |WordsHash(Encode(g))| == 64
    ensures forall r, c :: 0 <= r < 8 && 0 <= c < 8 ==> WordsHash(Encode(g))[8 * r + c] == CellLetter(g[r][c])
  {
    var words := Encode(g);
    forall r | 0 <= r < 8
      ensures RowHash(words[r]) == seq(8, c requires 0 <= c < 8 => CellLetter(g[r][c]))
    {
      RowHashOfRowWord(g[r], 8);
    }
    WordsHashRows(words, 8);
    assert words[..8] == words;
    forall r, c | 0 <= r < 8 && 0 <= c < 8
      ensures WordsHash(words)[8 * r + c] == CellLetter(g[r][c])
    {
      assert WordsHash(words)[8 * r + c] == RowHash(words[r])[c];
    }
  }

  lemma {:induction false} NatStringInjective(a: nat, b: nat)
    requires NatString(a) == NatString(b)
    ensures a == b
  {
    if a >= 10 && b >= 10 {
      var sa := NatString(a);
      assert sa[..|sa| - 1] == NatString(a / 10);
      assert NatString(b)[..|sa| - 1] == NatString(b / 10);
      NatStringInjective(a / 10, b / 10);
      assert "0123456789"[a % 10] == "0123456789"[b % 10];
    } else if a < 10 && b < 10 {
      assert "0123456789"[a] == "0123456789"[b];
    }
  }

  /** A decimal string starts with a minus sign exactly for negative numbers. */
  lemma IntStringSign(i: int)
    ensures |IntString(i)| >= 1
    ensures IntString(i)[0] == '-' <==> i < 0
  {
    if i >= 0 {
      assert NatString(i)[0] in "0123456789";
    }
  }

  lemma IntStringInjective(i: int, j: int)
    requires IntString(i) == IntString(j)
    ensures i == j
  {
    IntStringSign(i);
    IntStringSign(j);
    if i < 0 {
      var a, b := NatString(-i), NatString(-j);
      assert ("-" + a)[1..] == a;
      assert ("-" + b)[1..] == b;
      NatStringInjective(-i, -j);
    } else {
      assert IntString(i) == NatString(i) && IntString(j) == NatString(j);
      NatStringInjective(i, j);
    }
  }

  lemma CellLetterInjective(x: Cell, y: Cell, r: int, c: int)
    requires Placed(x, r, c) && Placed(y, r, c)
    requires CellLetter(x) == CellLetter(y)
    ensures x == y
  {
  }

  /** The board part of the key determines the cells. */
  lemma GridHashInjective(g1: Grid, g2: Grid)
    requires WordsHash(Encode(g1)) == WordsHash(Encode(g2))
    ensures g1 == g2
  {
    HashOfGrid(g1);
    HashOfGrid(g2);
    forall r, c | 0 <= r < 8 && 0 <= c < 8
      ensures g1[r][c] == g2[r][c]
    {
      CellLetterInjective(g1[r][c], g2[r][c], r, c);
    }
    forall r | 0 <= r < 8
      ensures g1[r] == g2[r]
    {
    }
  }

  /** Two states of encoded boards with the same key have the same cells,
      the same turn and the same level. */
  lemma HashKeyInjective(g1: Grid, t1: Colour, l1: int, g2: Grid, t2: Colour, l2: int)
    requires HashKey(Encode(g1), t1, l1) == HashKey(Encode(g2), t2, l2)
    ensures g1 == g2 && t1 == t2 && l1 == l2
  {
    var w1, w2 := WordsHash(Encode(g1)), WordsHash(Encode(g2));
    var k := HashKey(Encode(g1), t1, l1);
    HashOfGrid(g1);
    HashOfGrid(g2);
    assert w1 == k[..64] == w2;
    GridHashInjective(g1, g2);
    assert k[64] == TurnLetter(t1) == TurnLetter(t2);
    assert IntString(l1) == k[65..] == IntString(l2);
    IntStringInjective(l1, l2);
  }

  // ----- the search node ---------------------------------------------------

  class State {
    // turn and is_terminal are assigned once, by __init__.
    const turn: Colour
    var level: int
    const isTerminal: bool
    var cachedBoard: Option<Board>
    var nextMove: State?
    var value: Option<int>

    /** The board this state was built from; its level is the state's own. */
    ghost const origin: Board

    /** The board as it now stands: the original one at the current level. */
    ghost function Current(): Board
      reads this`level
    {
      origin.(level := level)
    }

    /** The copied fields agree with the board; the cache holds the current
        board; a memoised value is its material balance. */
    ghost predicate Valid()
      reads this`level, this`cachedBoard, this`value
    {
      && turn == origin.turn
      && isTerminal == origin.ended
      && (cachedBoard.Some? ==> cachedBoard.value == Current())
      && (value.Some? ==> value.value == Material(origin.grid))
    }

    /** State.__init__. */
    constructor (board: Board)
      ensures Valid() && origin == board && Current() == board
      ensures turn == board.turn && level == board.level && isTerminal == board.ended
      ensures cachedBoard == Some(board) && nextMove == null && value == None
    {
      turn := board.turn;
      level := board.level;
      isTerminal := board.ended;
      cachedBoard := Some(board);
      nextMove := null;
      value := None;
      origin := board;
    }

    /** The letters of one row word: reads the top nibble, appends its
        letters and shifts the word left by 4, eight times. */
    static method HashRow(word: Word) returns (letters: string)
      ensures letters == RowHash(word)
    {
      letters := "";
      var row := word;
      for columnNumber := 0 to 8
        invariant row == word * Pow16(columnNumber)
        invariant letters == RowHashUpTo(word, columnNumber)
      {
        var piece := Nib(row, 7);
        NibShifted(word, columnNumber, 7 - columnNumber);
        assert piece == Nibble(word, columnNumber);
        if piece == EmptyCode {
          letters := letters + "e";
        } else if piece == WhiteManCode {
          letters := letters + "a";
        } else if piece == BlackManCode {
          letters := letters + "b";
        } else if piece == WhiteKingCode {
          letters := letters + "c";
        } else if piece == BlackKingCode {
          letters := letters + "d";
        }
        row := row * 16;
      }
    }

    /** State.hash: the letters of the encoded board, the turn letter and
        the decimal level. */
    method Hash() returns (result: string)
      requires cachedBoard.Some?
      ensures result == HashKey(Encode(cachedBoard.value.grid), turn, level)
    {
      var boardRepr := BoardRepr(cachedBoard.value.grid);
      result := "";
      for rowNumber := 0 to 8
        invariant result == WordsHash(boardRepr[..rowNumber])
      {
        var letters := HashRow(boardRepr[rowNumber]);
        assert boardRepr[..rowNumber + 1][..rowNumber] == boardRepr[..rowNumber];
        result := result + letters;
      }
      assert boardRepr[..8] == boardRepr;
      if turn == White {
        result := result + "a";
      } else {
        result := result + "b";
      }
      result := result + IntString(level);
    }

    /** State.reset_level: the level of the state and of its cached board
        become 0. */
    method ResetLevel()
      requires Valid()
      modifies this`level, this`cachedBoard
      ensures Valid() && Current() == old(Current()).(level := 0)
      ensures level == 0
      ensures cachedBoard == if old(cachedBoard).Some? then Some(old(cachedBoard).value.(level := 0)) else None
    {
      level := 0;
      if cachedBoard.Some? {
        cachedBoard := Some(cachedBoard.value.(level := 0));
      }
    }

    /** State.next_states: a new State for every successor of the board, in order. */
    method NextStates() returns (result: seq<State>)
      requires Valid() && cachedBoard.Some?
      ensures |result| == |origin.successors|
      ensures forall i :: 0 <= i < |result| ==>
                && fresh(result[i]) && result[i].Valid()
                && result[i].origin == origin.successors[i]
                && result[i].cachedBoard == Some(origin.successors[i])
                && result[i].nextMove == null && result[i].value == None
      ensures forall i, j :: 0 <= i < j < |result| ==> result[i] != result[j]
    {
      var boards := cachedBoard.value.successors;
      result := [];
      for k := 0 to |boards|
        invariant |result| == k
        invariant forall i :: 0 <= i < k ==>
                    && fresh(result[i]) && result[i].Valid()
                    && result[i].origin == boards[i]
                    && result[i].cachedBoard == Some(boards[i])
                    && result[i].nextMove == null && result[i].value == None
        invariant forall i, j :: 0 <= i < j < k ==> result[i] != result[j]
      {
        var newState := new State(boards[k]);
        result := result + [newState];
      }
    }

    /** State.balance: the sentinel at the end of the game, otherwise the
        board's balance, computed on the first read and memoised. */
    method Balance() returns (result: int)
      requires Valid()
      requires isTerminal || value.Some? || cachedBoard.Some?
      modifies this`value
      ensures Valid()
      ensures result == Score(origin)
      ensures old(value).Some? ==> value == old(value)
      ensures isTerminal ==> value == old(value)
      ensures !isTerminal ==> value == Some(result)
    {
      if isTerminal {
        if turn == White {
          return -WinScore;
        } else {
          return WinScore;
        }
      }
      if value.None? {
        var b := Boards.Balance(cachedBoard.value.grid);
        value := Some(b);
      }
      return value.value;
    }

    /** State.clean_cached_board. */
    method CleanCachedBoard()
      requires Valid()
      modifies this`cachedBoard
      ensures Valid() && cachedBoard == None
    {
      cachedBoard := None;
    }
  }
}
