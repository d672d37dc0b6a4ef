/**
 * `serializeBoard` (src/main.js): each cell becomes `'0'`, `'black'` or
 * `'white'`, the cells of a row are concatenated and the rows are joined with
 * `'/'`. The string is the key of the Ko history and of the transposition
 * table, so the model pairs it with a decoder and proves the round trip.
 */
module Serialization {
  import opened Wrappers
  import opened GoBoard

  function Token(cell: Option<Color>): (t: string)
    ensures |t| > 0 && '/' !in t
  {
    match cell
    case None => "0"
    case Some(Black) => "black"
    case Some(White) => "white"
  }

  /** `row.map(...).join('')`. */
  function RowString(row: seq<Option<Color>>): (s: string)
    ensures |row| > 0 ==> |s| > 0
  {
    if |row| == 0 then "" else Token(row[0]) + RowString(row[1..])
  }

  /** `rows.join('/')`. */
  function JoinRows(g: Grid): string
  {
    if |g| == 0 then ""
    else if |g| == 1 then RowString(g[0])
    else RowString(g[0]) + "/" + JoinRows(g[1..])
  }

  function SerializeGrid(g: Grid): string
  {
    JoinRows(g)
  }

  /** `serializeBoard`: the key of a board reads only the colour of each cell. */
  function Serialize(b: Board): string
  {
    SerializeGrid(Colours(b))
  }

  /** Reads one cell token at the start of `s`, with its length. */
  function ReadToken(s: string): (r: Option<(Option<Color>, nat)>)
    ensures r.Some? ==> 0 < r.value.1 <= |s| && s[..r.value.1] == Token(r.value.0)
  {
    if |s| >= 1 && s[0] == '0' then Some((None, 1))
    else if |s| >= 5 && s[..5] == "black" then Some((Some(Black), 5))
    else if |s| >= 5 && s[..5] == "white" then Some((Some(White), 5))
    else None
  }

  /** Reads the cells of one row, up to the end of the string or the next `'/'`. */
  function DecodeRow(s: string): (r: Option<(seq<Option<Color>>, string)>)
    ensures r.Some? ==> |r.value.1| <= |s|
    ensures r.Some? ==> |r.value.1| == 0 || r.value.1[0] == '/'
    decreases |s|
  {
    if |s| == 0 || s[0] == '/' then Some(([], s))
    else
      match ReadToken(s)
      case None => None
      case Some((cell, len)) =>
        match DecodeRow(s[len..])
        case None => None
        case Some((row, rest)) => Some(([cell] + row, rest))
  }

  /** Reads `'/'`-separated rows up to the end of the string. */
  function DecodeRows(s: string): Option<Grid>
    decreases |s|
  {
    match DecodeRow(s)
    case None => None
    case Some((row, rest)) =>
      if |rest| == 0 then Some([row])
      else match DecodeRows(rest[1..])
        case None => None
        case Some(rows) => Some([row] + rows)
  }

  /** The inverse of `SerializeGrid`. */
  function Deserialize(s: string): Option<Grid>
  {
    if |s| == 0 then Some([]) else DecodeRows(s)
  }

  /** A token followed by a decodable row decodes to that cell followed by the row. */
  lemma DecodeRowCons(cell: Option<Color>, tail: string)
    requires DecodeRow(tail).Some?
    ensures DecodeRow(Token(cell) + tail)
         == Some(([cell] + DecodeRow(tail).value.0, DecodeRow(tail).value.1))
  {
    var t := Token(cell);
    var s := t + tail;
    assert s[..|t|] == t && s[|t|..] == tail;
    assert s[0] == t[0] && t[0] != '/';
    assert ReadToken(s) == Some((cell, |t|));
  }

  /** A row's string is its first token followed by the string of the remaining cells. */
  lemma {:induction false} RowStringCons(row: seq<Option<Color>>, rest: string)
    requires |row| > 0
    ensures RowString(row) + rest == Token(row[0]) + (RowString(row[1..]) + rest)
  {
    assert RowString(row) == Token(row[0]) + RowString(row[1..]);
    ConcatAssoc(Token(row[0]), RowString(row[1..]), rest);
  }

  lemma ConcatAssoc(a: string, b: string, c: string)
    ensures (a + b) + c == a + (b + c)
  {
  }

  /** The cons step of the decoder, on any string that starts with a token. */
  lemma DecodeRowPrefix(cell: Option<Color>, cells: seq<Option<Color>>, rest: string, tail: string, s: string)
    requires DecodeRow(tail) == Some((cells, rest))
    requires s == Token(cell) + tail
    ensures DecodeRow(s) == Some(([cell] + cells, rest))
  {
    DecodeRowCons(cell, tail);
  }

  lemma {:induction false} DecodeRowString(row: seq<Option<Color>>, rest: string)
    requires |rest| == 0 || rest[0] == '/'
    ensures DecodeRow(RowString(row) + rest) == Some((row, rest))
  {
    if |row| > 0 {
      DecodeRowString(row[1..], rest);
      RowStringCons(row, rest);
      DecodeRowPrefix(row[0], row[1..], rest, RowString(row[1..]) + rest, RowString(row) + rest);
      assert [row[0]] + row[1..] == row;
    } else {
      assert RowString(row) + rest == rest;
    }
  }

  lemma {:induction false} DecodeJoinRows(g: Grid)
    requires |g| > 0
    ensures DecodeRows(JoinRows(g)) == Some(g)
  {
    if |g| == 1 {
      DecodeRowString(g[0], "");
      assert RowString(g[0]) + "" == RowString(g[0]);
      assert [g[0]] == g;
    } else {
      var rest := "/" + JoinRows(g[1..]);
      DecodeRowString(g[0], rest);
      assert JoinRows(g) == RowString(g[0]) + rest;
      assert rest[1..] == JoinRows(g[1..]);
      DecodeJoinRows(g[1..]);
      assert [g[0]] + g[1..] == g;
    }
  }

  /** Round trip: decoding the key of a square board gives back its colours. */
  lemma DeserializeSerialize(g: Grid)
    requires IsSquare(g)
    ensures Deserialize(SerializeGrid(g)) == Some(g)
  {
    if |g| > 0 {
      assert |g[0]| > 0;
      assert |SerializeGrid(g)| > 0 by {
        if |g| > 1 {
          assert JoinRows(g) == RowString(g[0]) + "/" + JoinRows(g[1..]);
        }
      }
      DecodeJoinRows(g);
    }
  }

  /** Two square boards have the same key exactly when they hold the same stones. */
  lemma SerializeInjective(a: Board, b: Board)
    requires IsSquare(a) && IsSquare(b)
    ensures Serialize(a) == Serialize(b) <==> Colours(a) == Colours(b)
  {
    DeserializeSerialize(Colours(a));
    DeserializeSerialize(Colours(b));
  }
}
