/** The grid layout: a fixed 8 x 12 table placing each state's two-letter
    code in one cell, and the linear search that locates a code in it. */
module Grid {
  import opened Wrappers

  const Rows := 8
  const Cols := 12

  /** The layout table, row by row; `None` is an empty cell. */
  const StateMatrix: seq<seq<Option<string>>> := [
    [Some("AK"), None, None, None, None, None, None, None, None, None, None, Some("ME")],
    [None, None, None, None, None, None, None, None, None, None, Some("VT"), Some("NH")],
    [None, Some("WA"), Some("ID"), Some("MT"), Some("ND"), Some("MN"), Some("IL"), Some("WI"), Some("MI"), Some("NY"), Some("RI"), Some("MA")],
    [None, Some("OR"), Some("NV"), Some("WY"), Some("SD"), Some("IA"), Some("IN"), Some("OH"), Some("PA"), Some("NJ"), Some("CT"), None],
    [None, Some("CA"), Some("UT"), Some("CO"), Some("NE"), Some("MO"), Some("KY"), Some("WV"), Some("VA"), Some("MD"), Some("DC"), None],
    [None, None, Some("AZ"), Some("NM"), Some("KS"), Some("AR"), Some("TN"), Some("NC"), Some("SC"), Some("DE"), None, None],
    [None, None, None, None, Some("OK"), Some("LA"), Some("MS"), Some("AL"), Some("GA"), None, None, None],
    [None, Some("HI"), None, None, Some("TX"), None, None, None, None, Some("FL"), None, None]
  ]

  predicate InGrid(i: int, j: int) {
    0 <= i < Rows && 0 <= j < Cols
  }

  /** The table has 8 rows of 12 cells each. */
  lemma TableShape()
    ensures |StateMatrix| == Rows
    ensures forall i :: 0 <= i < Rows ==> |StateMatrix[i]| == Cols
  {
  }

  /** Some cell of the table holds `state`. */
  ghost predicate Listed(state: string) {
    exists i, j :: InGrid(i, j) && StateMatrix[i][j] == Some(state)
  }

  /** (i, j) holds `state` and no cell before it in row-major order does. */
  ghost predicate FirstMatch(state: string, i: int, j: int) {
    InGrid(i, j) && StateMatrix[i][j] == Some(state) &&
    forall i', j' :: InGrid(i', j') && (i' < i || (i' == i && j' < j)) ==> StateMatrix[i'][j'] != Some(state)
  }

  /** Scans the table row by row and returns the first cell holding `state`,
      or the sentinel (-1, -1) when no cell does. */
  method GetStateLoc(state: string) returns (i: int, j: int)
    ensures (i, j) == (-1, -1) <==> !Listed(state)
    ensures (i, j) != (-1, -1) ==> FirstMatch(state, i, j)
  {
    TableShape();
    var row := 0;
    while row < |StateMatrix|
      invariant 0 <= row <= Rows
      invariant forall i', j' :: InGrid(i', j') && i' < row ==> StateMatrix[i'][j'] != Some(state)
    {
      var col := 0;
      while col < |StateMatrix[row]|
        invariant 0 <= col <= Cols
        invariant forall j' :: 0 <= j' < col ==> StateMatrix[row][j'] != Some(state)
        invariant forall i', j' :: InGrid(i', j') && i' < row ==> StateMatrix[i'][j'] != Some(state)
      {
        if StateMatrix[row][col] == Some(state) {
          return row, col;
        }
        col := col + 1;
      }
      row := row + 1;
    }
    return -1, -1;
  }

  /** The position of each listed code, written out letter by letter; any
      other string is placed nowhere. */
  ghost function Home(c: string): (int, int) {
    if |c| != 2 then (-1, -1) else
    match c[0]
      case 'A' => (match c[1] case 'K' => (0, 0) case 'L' => (6, 7) case 'R' => (5, 5) case 'Z' => (5, 2) case _ => (-1, -1))
      case 'C' => (match c[1] case 'A' => (4, 1) case 'O' => (4, 3) case 'T' => (3, 10) case _ => (-1, -1))
      case 'D' => (match c[1] case 'C' => (4, 10) case 'E' => (5, 9) case _ => (-1, -1))
      case 'F' => (match c[1] case 'L' => (7, 9) case _ => (-1, -1))
      case 'G' => (match c[1] case 'A' => (6, 8) case _ => (-1, -1))
      case 'H' => (match c[1] case 'I' => (7, 1) case _ => (-1, -1))
      case 'I' => (match c[1] case 'A' => (3, 5) case 'D' => (2, 2) case 'L' => (2, 6) case 'N' => (3, 6) case _ => (-1, -1))
      case 'K' => (match c[1] case 'S' => (5, 4) case 'Y' => (4, 6) case _ => (-1, -1))
      case 'L' => (match c[1] case 'A' => (6, 5) case _ => (-1, -1))
      case 'M' => (match c[1] case 'A' => (2, 11) case 'D' => (4, 9) case 'E' => (0, 11) case 'I' => (2, 8) case 'N' => (2, 5) case 'O' => (4, 5) case 'S' => (6, 6) case 'T' => (2, 3) case _ => (-1, -1))
      case 'N' => (match c[1] case 'C' => (5, 7) case 'D' => (2, 4) case 'E' => (4, 4) case 'H' => (1, 11) case 'J' => (3, 9) case 'M' => (5, 3) case 'V' => (3, 2) case 'Y' => (2, 9) case _ => (-1, -1))
      case 'O' => (match c[1] case 'H' => (3, 7) case 'K' => (6, 4) case 'R' => (3, 1) case _ => (-1, -1))
      case 'P' => (match c[1] case 'A' => (3, 8) case _ => (-1, -1))
      case 'R' => (match c[1] case 'I' => (2, 10) case _ => (-1, -1))
      case 'S' => (match c[1] case 'C' => (5, 8) case 'D' => (3, 4) case _ => (-1, -1))
      case 'T' => (match c[1] case 'N' => (5, 6) case 'X' => (7, 4) case _ => (-1, -1))
      case 'U' => (match c[1] case 'T' => (4, 2) case _ => (-1, -1))
      case 'V' => (match c[1] case 'A' => (4, 8) case 'T' => (1, 10) case _ => (-1, -1))
      case 'W' => (match c[1] case 'A' => (2, 1) case 'I' => (2, 7) case 'V' => (4, 7) case 'Y' => (3, 3) case _ => (-1, -1))
      case _ => (-1, -1)
  }

  /** Every filled cell is the home of the code it holds. */
  lemma HomeOfCell(i: int, j: int)
    requires InGrid(i, j) && StateMatrix[i][j].Some?
    ensures Home(StateMatrix[i][j].value) == (i, j)
  {
    assert j in {0, 1, 2, 3, 4, 5, 6, 7, 8, 9, 10, 11};
    if i == 0 {} else if i == 1 {} else if i == 2 {} else if i == 3 {}
    else if i == 4 {} else if i == 5 {} else if i == 6 {} else {}
  }

  /** A code with a home is held by the cell at that home. */
  lemma HomeHoldsCode(c: string)
    requires Home(c) != (-1, -1)
    ensures InGrid(Home(c).0, Home(c).1) && StateMatrix[Home(c).0][Home(c).1] == Some(c)
  {
    assert c == [c[0], c[1]];
  }

  /** No code is held by two cells. */
  lemma CodesUnique(i1: int, j1: int, i2: int, j2: int)
    requires InGrid(i1, j1) && InGrid(i2, j2)
    requires StateMatrix[i1][j1].Some? && StateMatrix[i1][j1] == StateMatrix[i2][j2]
    ensures i1 == i2 && j1 == j2
  {
    HomeOfCell(i1, j1);
    HomeOfCell(i2, j2);
  }

  /** A code is listed exactly when it has a home. */
  lemma ListedIffHome(state: string)
    ensures Listed(state) <==> Home(state) != (-1, -1)
  {
    if Listed(state) {
      var i, j :| InGrid(i, j) && StateMatrix[i][j] == Some(state);
      HomeOfCell(i, j);
    }
    if Home(state) != (-1, -1) {
      HomeHoldsCode(state);
    }
  }

  /** Whatever GetStateLoc may return is the code's home: the search result
      is determined by the code alone, and is the sentinel exactly for codes
      the table does not hold. */
  lemma LocationIsHome(state: string, i: int, j: int)
    requires (i, j) == (-1, -1) <==> !Listed(state)
    requires (i, j) != (-1, -1) ==> FirstMatch(state, i, j)
    ensures (i, j) == Home(state)
  {
    ListedIffHome(state);
    if (i, j) != (-1, -1) {
      HomeOfCell(i, j);
    }
  }

  /** California sits in row 4, column 1; "ZZ" is not in the table. */
  lemma KnownLocations()
    ensures FirstMatch("CA", 4, 1)
    ensures !Listed("ZZ")
  {
    forall i, j | InGrid(i, j) && (i < 4 || (i == 4 && j < 1))
      ensures StateMatrix[i][j] != Some("CA")
    {
      if StateMatrix[i][j].Some? { HomeOfCell(i, j); }
    }
    ListedIffHome("ZZ");
  }
}
