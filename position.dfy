/** Position: a mutable (row, column) pair, printed by toString. */
module Positions {
  import opened JavaText

  /** The text Position.toString builds. */
  function PositionText(row: int32, column: int32): string {
    "Position{row=" + IntToString(row as int) + ", column=" + IntToString(column as int) + "}"
  }

  /** Integer.toString gives each `int` its own text. */
  lemma IntToStringInjective(i: int32, j: int32)
    ensures IntToString(i as int) == IntToString(j as int) <==> i == j
  {
    ParseIntToString(i);
    ParseIntToString(j);
  }

  lemma PositionTextShape(row: int32, column: int32)
    ensures PositionText(row, column) ==
      ("Position{row=" + IntToString(row as int)) + [','] + (" column=" + IntToString(column as int) + "}")
  {
  }

  /** Two texts cut at their first comma, equal, have equal pieces. */
  lemma CutAtComma(x1: string, x2: string, y1: string, y2: string)
    requires ',' !in x1 && ',' !in x2
    requires x1 + [','] + y1 == x2 + [','] + y2
    ensures x1 == x2 && y1 == y2
  {
    IndexAfter(x1, ',', y1);
    IndexAfter(x2, ',', y2);
    var s := x1 + [','] + y1;
    assert x1 == s[..|x1|] && x2 == s[..|x2|];
    assert y1 == s[|x1| + 1..] && y2 == s[|x2| + 1..];
  }

  /** toString tells positions apart: two positions print alike exactly when
      their rows and their columns are equal. */
  lemma PositionTextInjective(r1: int32, c1: int32, r2: int32, c2: int32)
    ensures PositionText(r1, c1) == PositionText(r2, c2) <==> r1 == r2 && c1 == c2
  {
    if PositionText(r1, c1) == PositionText(r2, c2) {
      var p := "Position{row=";
      var a1, a2 := IntToString(r1 as int), IntToString(r2 as int);
      var b1, b2 := IntToString(c1 as int), IntToString(c2 as int);
      IntToStringPlain(r1 as int);
      IntToStringPlain(r2 as int);
      PositionTextShape(r1, c1);
      PositionTextShape(r2, c2);
      assert ',' !in p + a1 && ',' !in p + a2;
      CutAtComma(p + a1, p + a2, " column=" + b1 + "}", " column=" + b2 + "}");
      assert a1 == (p + a1)[|p|..] && a2 == (p + a2)[|p|..];
      var rest1 := " column=" + b1 + "}";
      var rest2 := " column=" + b2 + "}";
      assert b1 == rest1[8..|rest1| - 1] && b2 == rest2[8..|rest2| - 1];
      IntToStringInjective(r1, r2);
      IntToStringInjective(c1, c2);
    }
  }

  class Position {
    var row: int32
    var column: int32

    constructor (row: int32, column: int32)
      ensures this.row == row && this.column == column
    {
      this.row := row;
      this.column := column;
    }

    function GetRow(): (r: int32)
      reads this
      ensures r == row
    {
      row
    }

    function GetColumn(): (c: int32)
      reads this
      ensures c == column
    {
      column
    }

    /** setRow changes the row and nothing else. */
    method SetRow(row: int32)
      modifies `row
      ensures this.row == row && column == old(column)
    {
      this.row := row;
    }

    /** setColumn changes the column and nothing else. */
    method SetColumn(column: int32)
      modifies `column
      ensures this.column == column && row == old(row)
    {
      this.column := column;
    }

    /** toString: "Position{row=R, column=C}" (PositionTextInjective says the
        row and the column can be read back from it). */
    function ToString(): string
      reads this
    {
      PositionText(row, column)
    }
  }
}
