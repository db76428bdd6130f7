/** Resolution of a sheet's print area into four 1-based inclusive bounds
    (`process_sheet`, the block that computes `min_col`, `min_row`, `max_col`
    and `max_row`). */
module PrintArea {
  import opened Wrappers
  import opened PyText

  /** First column, first row, last column, last row; 1-based and inclusive.
      Rows come from `int()` and may be zero or negative; nothing orders the
      first corner before the second. */
  datatype Bounds = Bounds(minCol: int, minRow: int, maxCol: int, maxRow: int)

  /** The exceptions `process_sheet` can raise. */
  datatype SheetError =
    | NotTwoCorners                     // the range does not split into exactly two pieces at `:`
    | EmptyCorner                       // `[0]` of a corner that is empty once `$` is removed
    | BadColumnLetter(letter: char)     // `column_index_from_string` refuses the letter
    | BadRowNumber(text: string)        // `int()` refuses the row text
    | ColumnIndexOutOfRange(index: int) // `get_column_letter` refuses the index

  /** The largest index `get_column_letter` accepts (column ZZZ). */
  const MaxColumnIndex: int := 18278

  predicate NoPrintArea(printArea: Option<string>) {
    printArea.None? || printArea.value == ""
  }

  /** The upper-case form of an ASCII letter. */
  function UpperCase(ch: char): char {
    if 'a' <= ch <= 'z' then (ch as int - 32) as char else ch
  }

  /** The column named by one letter, A to Z (`column_index_from_string`
      upper-cases its argument first, so a to z as well). */
  function ColumnLetter(col: int): (ch: char)
    requires 1 <= col <= 26
    ensures 'A' <= ch <= 'Z'
  {
    ('A' as int + col - 1) as char
  }

  /** `column_index_from_string` applied to a one-character column name. */
  function ColumnIndexOfLetter(ch: char): (r: Option<int>)
    ensures r.Some? <==> IsAsciiLetter(ch)
    ensures r.Some? ==> 1 <= r.value <= 26 && ColumnLetter(r.value) == UpperCase(ch)
  {
    if 'A' <= ch <= 'Z' then Some(ch as int - 'A' as int + 1)
    else if 'a' <= ch <= 'z' then Some(ch as int - 'a' as int + 1)
    else None
  }

  /** A corner with its `$` signs removed: the first character names the
      column, the rest is the row number (column first, then row, as the
      conversions run). */
  function ParseCorner(corner: string): (r: Result<(int, int), SheetError>)
    requires corner != []
    ensures r.Ok? ==> 1 <= r.value.0 <= 26
    ensures r.Err? ==> r.error.BadColumnLetter? || r.error.BadRowNumber?
    ensures r.Ok? <==> IsAsciiLetter(corner[0]) && ParseInt(corner[1..]).Some?
    ensures r.Ok? ==> ColumnLetter(r.value.0) == UpperCase(corner[0]) && ParseInt(corner[1..]) == Some(r.value.1)
    ensures r == Err(BadColumnLetter(corner[0])) <==> !IsAsciiLetter(corner[0])
    ensures r == Err(BadRowNumber(corner[1..])) <==> IsAsciiLetter(corner[0]) && ParseInt(corner[1..]).None?
  {
    match ColumnIndexOfLetter(corner[0])
    case None => Err(BadColumnLetter(corner[0]))
    case Some(col) =>
      match ParseInt(corner[1..])
      case None => Err(BadRowNumber(corner[1..]))
      case Some(row) => Ok((col, row))
  }

  /** The bounds given by the two corner texts of a range: first the `$`
      signs go and an empty corner is refused, then the top-left corner is
      converted, then the bottom-right one. */
  function ResolveCorners(topLeft: string, bottomRight: string): (r: Result<Bounds, SheetError>)
    ensures r.Ok? ==> 1 <= r.value.minCol <= 26 && 1 <= r.value.maxCol <= 26
    ensures r.Err? ==> r.error.EmptyCorner? || r.error.BadColumnLetter? || r.error.BadRowNumber?
    ensures r == Err(EmptyCorner) <==> RemoveAll(topLeft, '$') == [] || RemoveAll(bottomRight, '$') == []
    ensures r.Ok? ==>
      var tl := RemoveAll(topLeft, '$');
      var br := RemoveAll(bottomRight, '$');
      && tl != [] && br != []
      && ParseCorner(tl) == Ok((r.value.minCol, r.value.minRow))
      && ParseCorner(br) == Ok((r.value.maxCol, r.value.maxRow))
    ensures
      var tl := RemoveAll(topLeft, '$');
      var br := RemoveAll(bottomRight, '$');
      tl != [] && br != [] && ParseCorner(tl).Ok? && ParseCorner(br).Ok? ==>
        r == Ok(Bounds(ParseCorner(tl).value.0, ParseCorner(tl).value.1,
                       ParseCorner(br).value.0, ParseCorner(br).value.1))
    ensures
      var tl := RemoveAll(topLeft, '$');
      var br := RemoveAll(bottomRight, '$');
      tl != [] && br != [] && ParseCorner(tl).Err? ==> r == Err(ParseCorner(tl).error)
    ensures
      var tl := RemoveAll(topLeft, '$');
      var br := RemoveAll(bottomRight, '$');
      tl != [] && br != [] && ParseCorner(tl).Ok? && ParseCorner(br).Err? ==> r == Err(ParseCorner(br).error)
  {
    var tl := RemoveAll(topLeft, '$');
    var br := RemoveAll(bottomRight, '$');
    if tl == [] || br == [] then Err(EmptyCorner)
    else
      match ParseCorner(tl)
      case Err(e) => Err(e)
      case Ok((minCol, minRow)) =>
        match ParseCorner(br)
        case Err(e) => Err(e)
        case Ok((maxCol, maxRow)) => Ok(Bounds(minCol, minRow, maxCol, maxRow))
  }

  /** The bounds `process_sheet` iterates over. With no print area (absent or
      empty) they are the sheet's whole extent. Otherwise the text after the
      last `!` must hold exactly one `:`, and its two sides are the corners. */
  function ResolveBounds(printArea: Option<string>, maxColumn: nat, maxRow: nat): (r: Result<Bounds, SheetError>)
    ensures !NoPrintArea(printArea) && r.Ok? ==> 1 <= r.value.minCol <= 26 && 1 <= r.value.maxCol <= 26
    ensures r.Err? ==> !r.error.ColumnIndexOutOfRange?
  {
    if NoPrintArea(printArea) then Ok(Bounds(1, 1, maxColumn, maxRow))
    else
      match SplitInTwo(AfterLast(printArea.value, '!'), ':')
      case None => Err(NotTwoCorners)
      case Some((topLeft, bottomRight)) => ResolveCorners(topLeft, bottomRight)
  }

  /** A range written as two corners joined by `:` resolves corner by corner. */
  lemma JoinedRangeResolves(topLeft: string, bottomRight: string, maxColumn: nat, maxRow: nat)
    requires ':' !in topLeft && ':' !in bottomRight && '!' !in topLeft && '!' !in bottomRight
    ensures ResolveBounds(Some(topLeft + ":" + bottomRight), maxColumn, maxRow) == ResolveCorners(topLeft, bottomRight)
  {
    var s := topLeft + ":" + bottomRight;
    assert s == topLeft + [':'] + bottomRight;
    AfterLastUnqualified(s, '!');
    SplitInTwoOfJoin(topLeft, bottomRight, ':');
  }

  // ---------------------------------------------------------------------------
  // Writing a reference, to state what parsing one gives back
  // ---------------------------------------------------------------------------

  /** An absolute corner such as `$B$2`. */
  function CornerText(col: int, row: nat): string
    requires 1 <= col <= 26
  {
    ("$" + [ColumnLetter(col)]) + ("$" + Decimal(row))
  }

  predicate Referable(b: Bounds) {
    1 <= b.minCol <= 26 && 1 <= b.maxCol <= 26 && b.minRow >= 0 && b.maxRow >= 0
  }

  /** An absolute range such as `$B$2:$D$10`. */
  function AbsoluteReference(b: Bounds): string
    requires Referable(b)
  {
    CornerText(b.minCol, b.minRow) + ":" + CornerText(b.maxCol, b.maxRow)
  }

  /** Removing the `$` anchor of `$u`. */
  lemma DropAnchor(u: string)
    requires '$' !in u
    ensures RemoveAll("$" + u, '$') == u
  {
    var t := "$" + u;
    assert t[0] == '$' && t[1..] == u;
    RemoveAllAbsent(u, '$');
  }

  /** Removing the two `$` anchors of `$u$v`. */
  lemma RemoveAnchors(u: string, v: string)
    requires '$' !in u && '$' !in v
    ensures RemoveAll(("$" + u) + ("$" + v), '$') == u + v
  {
    DropAnchor(u);
    DropAnchor(v);
    RemoveAllConcat("$" + u, "$" + v, '$');
  }

  lemma CornerTextShape(col: int, row: nat)
    requires 1 <= col <= 26
    ensures ':' !in CornerText(col, row) && '!' !in CornerText(col, row)
    ensures RemoveAll(CornerText(col, row), '$') == [ColumnLetter(col)] + Decimal(row)
  {
    RemoveAnchors([ColumnLetter(col)], Decimal(row));
  }

  lemma CornerParses(col: int, row: nat)
    requires 1 <= col <= 26
    ensures var c := RemoveAll(CornerText(col, row), '$');
      c != [] && ParseCorner(c) == Ok((col, row))
  {
    CornerTextShape(col, row);
    CanonicalCornerParses(col, row);
  }

  /** A column letter followed by a row number in decimal converts back. */
  lemma CanonicalCornerParses(col: int, row: nat)
    requires 1 <= col <= 26
    ensures ParseCorner([ColumnLetter(col)] + Decimal(row)) == Ok((col, row))
  {
    var c := [ColumnLetter(col)] + Decimal(row);
    assert c[0] == ColumnLetter(col) && c[1..] == Decimal(row);
    assert ColumnIndexOfLetter(c[0]) == Some(col);
    ParseIntOfDecimal(row);
  }

  // ---------------------------------------------------------------------------
  // Properties of the resolver
  // ---------------------------------------------------------------------------

  /** Without a print area the bounds are the sheet's whole extent. */
  lemma FullExtentDefault(printArea: Option<string>, maxColumn: nat, maxRow: nat)
    requires NoPrintArea(printArea)
    ensures ResolveBounds(printArea, maxColumn, maxRow) == Ok(Bounds(1, 1, maxColumn, maxRow))
  {
  }

  /** Parsing an absolute reference gives back the bounds it was written from. */
  lemma AbsoluteReferenceRoundTrip(b: Bounds, maxColumn: nat, maxRow: nat)
    requires Referable(b)
    ensures ResolveBounds(Some(AbsoluteReference(b)), maxColumn, maxRow) == Ok(b)
  {
    CornerTextShape(b.minCol, b.minRow);
    CornerTextShape(b.maxCol, b.maxRow);
    JoinedRangeResolves(CornerText(b.minCol, b.minRow), CornerText(b.maxCol, b.maxRow), maxColumn, maxRow);
    CornerParses(b.minCol, b.minRow);
    CornerParses(b.maxCol, b.maxRow);
  }

  /** A sheet-name qualifier (everything up to and including the last `!`) is
      discarded. */
  lemma QualifierIgnored(q: string, s: string, maxColumn: nat, maxRow: nat)
    requires '!' !in s && s != ""
    ensures ResolveBounds(Some(q + "!" + s), maxColumn, maxRow) == ResolveBounds(Some(s), maxColumn, maxRow)
  {
    AfterLastOfQualified(q, s, '!');
    AfterLastUnqualified(s, '!');
  }

  /** A qualified absolute reference resolves to the bounds it was written from. */
  lemma QualifiedReferenceRoundTrip(q: string, b: Bounds, maxColumn: nat, maxRow: nat)
    requires Referable(b)
    ensures ResolveBounds(Some(q + "!" + AbsoluteReference(b)), maxColumn, maxRow) == Ok(b)
  {
    CornerTextShape(b.minCol, b.minRow);
    CornerTextShape(b.maxCol, b.maxRow);
    QualifierIgnored(q, AbsoluteReference(b), maxColumn, maxRow);
    AbsoluteReferenceRoundTrip(b, maxColumn, maxRow);
  }

  /** `$B$2:$D$10` gives columns 2 to 4 and rows 2 to 10. */
  lemma ExampleBounds(maxColumn: nat, maxRow: nat)
    ensures ResolveBounds(Some("$B$2:$D$10"), maxColumn, maxRow) == Ok(Bounds(2, 2, 4, 10))
  {
    var b := Bounds(2, 2, 4, 10);
    assert CornerText(2, 2) == "$B$2";
    assert Decimal(10) == "10";
    assert CornerText(4, 10) == "$D$10";
    assert AbsoluteReference(b) == "$B$2:$D$10";
    AbsoluteReferenceRoundTrip(b, maxColumn, maxRow);
  }

  /** With a sheet-name qualifier the same range gives the same bounds. */
  lemma ExampleQualifiedBounds(maxColumn: nat, maxRow: nat)
    ensures ResolveBounds(Some("Q!$B$2:$D$10"), maxColumn, maxRow) == Ok(Bounds(2, 2, 4, 10))
  {
    assert "Q!$B$2:$D$10" == "Q" + "!" + "$B$2:$D$10";
    QualifierIgnored("Q", "$B$2:$D$10", maxColumn, maxRow);
    ExampleBounds(maxColumn, maxRow);
  }

  /** A quoted sheet name containing a space is discarded as well. */
  lemma ExampleQuotedQualifier(maxColumn: nat, maxRow: nat)
    ensures ResolveBounds(Some("'Sheet 1'!$A$1:$C$3"), maxColumn, maxRow) == Ok(Bounds(1, 1, 3, 3))
  {
    var b := Bounds(1, 1, 3, 3);
    assert CornerText(1, 1) == "$A$1";
    assert CornerText(3, 3) == "$C$3";
    assert AbsoluteReference(b) == "$A$1:$C$3";
    assert "'Sheet 1'!$A$1:$C$3" == "'Sheet 1'" + "!" + "$A$1:$C$3";
    QualifiedReferenceRoundTrip("'Sheet 1'", b, maxColumn, maxRow);
  }

  /** A print area whose last range does not hold exactly one `:` is refused:
      a single cell, or several unqualified ranges joined by commas. */
  lemma MalformedRangeRejected(s: string, maxColumn: nat, maxRow: nat)
    requires s != "" && Count(AfterLast(s, '!'), ':') != 1
    ensures ResolveBounds(Some(s), maxColumn, maxRow) == Err(NotTwoCorners)
  {
    SplitInTwoSpec(AfterLast(s, '!'), ':');
  }

  /** Only the first character of a corner names its column, so a two-letter
      column such as `AA10` leaves `A10` for `int()`, which refuses it. */
  lemma MultiLetterColumnRejected(topLeft: string, x: char, y: char, rest: string, bottomRight: string)
    requires IsAsciiLetter(x) && IsAsciiLetter(y)
    requires RemoveAll(topLeft, '$') == [x, y] + rest
    requires RemoveAll(bottomRight, '$') != []
    ensures ResolveCorners(topLeft, bottomRight) == Err(BadRowNumber([y] + rest))
  {
    assert ParseCorner([x, y] + rest) == Err(BadRowNumber([y] + rest)) by {
      var tl := [x, y] + rest;
      assert tl[1..] == [y] + rest;
      assert ([y] + rest)[0] == y;
    }
  }

  lemma TwoLetterCorners()
    ensures ResolveCorners("$AA$10", "$AB$12") == Err(BadRowNumber("A10"))
  {
    assert "$AA$10" == ("$" + "AA") + ("$" + "10");
    assert "$AB$12" == ("$" + "AB") + ("$" + "12");
    assert "AA10" == ['A', 'A'] + "10";
    assert "A10" == ['A'] + "10";
    RemoveAnchors("AA", "10");
    RemoveAnchors("AB", "12");
    MultiLetterColumnRejected("$AA$10", 'A', 'A', "10", "$AB$12");
  }

  /** The example of that limitation: `$AA$10:$AB$12`. */
  lemma TwoLetterExample(maxColumn: nat, maxRow: nat)
    ensures ResolveBounds(Some("$AA$10:$AB$12"), maxColumn, maxRow) == Err(BadRowNumber("A10"))
  {
    assert "$AA$10" + ":" + "$AB$12" == "$AA$10:$AB$12";
    JoinedRangeResolves("$AA$10", "$AB$12", maxColumn, maxRow);
    TwoLetterCorners();
  }

  /** A letter followed by the decimal form of `n` converts to that letter's
      column and row `n`. */
  lemma LetterCornerParses(x: char, n: nat)
    requires IsAsciiLetter(x)
    ensures ParseCorner([x] + Decimal(n)) == Ok((ColumnIndexOfLetter(x).value, n))
  {
    var c := [x] + Decimal(n);
    assert c[0] == x && c[1..] == Decimal(n);
    ParseIntOfDecimal(n);
  }

  /** Corners need no `$` anchors and their letters may be lower case: `xm:yn`
      resolves to the columns of `x` and `y` and the rows `m` and `n`. */
  lemma UnanchoredRangeResolves(x: char, m: nat, y: char, n: nat, maxColumn: nat, maxRow: nat)
    requires IsAsciiLetter(x) && IsAsciiLetter(y)
    ensures ResolveBounds(Some(([x] + Decimal(m)) + ":" + ([y] + Decimal(n))), maxColumn, maxRow)
            == Ok(Bounds(ColumnIndexOfLetter(x).value, m, ColumnIndexOfLetter(y).value, n))
  {
    var tl := [x] + Decimal(m);
    var br := [y] + Decimal(n);
    assert forall i :: 0 <= i < |tl| ==> IsAsciiLetter(tl[i]) || IsDigit(tl[i]);
    assert forall i :: 0 <= i < |br| ==> IsAsciiLetter(br[i]) || IsDigit(br[i]);
    JoinedRangeResolves(tl, br, maxColumn, maxRow);
    RemoveAllAbsent(tl, '$');
    RemoveAllAbsent(br, '$');
    LetterCornerParses(x, m);
    LetterCornerParses(y, n);
  }

  /** `b2:D10` gives columns 2 to 4 and rows 2 to 10. */
  lemma ExampleLowerCaseBounds(maxColumn: nat, maxRow: nat)
    ensures ResolveBounds(Some("b2:D10"), maxColumn, maxRow) == Ok(Bounds(2, 2, 4, 10))
  {
    assert Decimal(2) == "2" && Decimal(10) == "10";
    assert "b2:D10" == (['b'] + Decimal(2)) + ":" + (['D'] + Decimal(10));
    UnanchoredRangeResolves('b', 2, 'D', 10, maxColumn, maxRow);
  }

  /** When the top-left corner converts, a bottom-right corner that does not
      start with a letter fails on its column letter. */
  lemma BadBottomColumnRejected(topLeft: string, bottomRight: string, y: char, t: string, maxColumn: nat, maxRow: nat)
    requires ':' !in topLeft && ':' !in bottomRight && '!' !in topLeft && '!' !in bottomRight
    requires RemoveAll(topLeft, '$') != [] && ParseCorner(RemoveAll(topLeft, '$')).Ok?
    requires RemoveAll(bottomRight, '$') == [y] + t && !IsAsciiLetter(y)
    ensures ResolveBounds(Some(topLeft + ":" + bottomRight), maxColumn, maxRow) == Err(BadColumnLetter(y))
  {
    JoinedRangeResolves(topLeft, bottomRight, maxColumn, maxRow);
    assert RemoveAll(bottomRight, '$')[0] == y;
  }

  /** The case of `BadBottomColumnRejected` where the top-left corner is a
      letter followed by a decimal row. */
  lemma BadBottomColumnAfterLetterCorner(topLeft: string, bottomRight: string, x: char, m: nat,
                                         y: char, t: string, maxColumn: nat, maxRow: nat)
    requires ':' !in topLeft && ':' !in bottomRight && '!' !in topLeft && '!' !in bottomRight
    requires IsAsciiLetter(x) && RemoveAll(topLeft, '$') == [x] + Decimal(m)
    requires RemoveAll(bottomRight, '$') == [y] + t && !IsAsciiLetter(y)
    ensures ResolveBounds(Some(topLeft + ":" + bottomRight), maxColumn, maxRow) == Err(BadColumnLetter(y))
  {
    LetterCornerParses(x, m);
    BadBottomColumnRejected(topLeft, bottomRight, y, t, maxColumn, maxRow);
  }

  /** The corners of `$A$1:$1$x` once `$` is removed. */
  lemma ExampleBadBottomCorners()
    ensures RemoveAll("$A$1", '$') == ['A'] + Decimal(1)
    ensures RemoveAll("$1$x", '$') == ['1'] + "x"
  {
    assert "$A$1" == ("$" + "A") + ("$" + "1");
    assert "$1$x" == ("$" + "1") + ("$" + "x");
    RemoveAnchors("A", "1");
    RemoveAnchors("1", "x");
    assert Decimal(1) == "1";
  }

  /** `$A$1:$1$x` raises for the column letter `1`. */
  lemma ExampleBadBottomColumn(maxColumn: nat, maxRow: nat)
    ensures ResolveBounds(Some("$A$1:$1$x"), maxColumn, maxRow) == Err(BadColumnLetter('1'))
  {
    assert "$A$1" + ":" + "$1$x" == "$A$1:$1$x";
    ExampleBadBottomCorners();
    BadBottomColumnAfterLetterCorner("$A$1", "$1$x", 'A', 1, '1', "x", maxColumn, maxRow);
  }

  /** A top-left corner whose row text `int()` refuses fails with that text:
      an empty row (`$A:$C`), a fraction (`A1.5`), inner blanks (`A1 0`),
      a doubled underscore (`A1__0`). */
  lemma BadTopRowRejected(topLeft: string, bottomRight: string, x: char, t: string, maxColumn: nat, maxRow: nat)
    requires ':' !in topLeft && ':' !in bottomRight && '!' !in topLeft && '!' !in bottomRight
    requires IsAsciiLetter(x) && RemoveAll(topLeft, '$') == [x] + t && ParseInt(t).None?
    requires RemoveAll(bottomRight, '$') != []
    ensures ResolveBounds(Some(topLeft + ":" + bottomRight), maxColumn, maxRow) == Err(BadRowNumber(t))
  {
    JoinedRangeResolves(topLeft, bottomRight, maxColumn, maxRow);
    assert ([x] + t)[1..] == t;
  }

  /** When the top-left corner converts, a bottom-right row text that `int()`
      refuses fails with that text. */
  lemma BadBottomRowRejected(topLeft: string, bottomRight: string, y: char, t: string, maxColumn: nat, maxRow: nat)
    requires ':' !in topLeft && ':' !in bottomRight && '!' !in topLeft && '!' !in bottomRight
    requires RemoveAll(topLeft, '$') != [] && ParseCorner(RemoveAll(topLeft, '$')).Ok?
    requires IsAsciiLetter(y) && RemoveAll(bottomRight, '$') == [y] + t && ParseInt(t).None?
    ensures ResolveBounds(Some(topLeft + ":" + bottomRight), maxColumn, maxRow) == Err(BadRowNumber(t))
  {
    JoinedRangeResolves(topLeft, bottomRight, maxColumn, maxRow);
    assert ([y] + t)[1..] == t;
  }

  /** A range of whole columns, `$A:$C`, leaves an empty row text, which
      `int()` refuses. */
  lemma ColumnOnlyRangeRejected(maxColumn: nat, maxRow: nat)
    ensures ResolveBounds(Some("$A:$C"), maxColumn, maxRow) == Err(BadRowNumber(""))
  {
    assert "$A" + ":" + "$C" == "$A:$C";
    assert RemoveAll("$A", '$') == ['A'] + "" by {
      assert "$A"[1..] == "A";
      assert "A"[1..] == "";
    }
    assert RemoveAll("$C", '$') == "C" by {
      assert "$C"[1..] == "C";
      assert "C"[1..] == "";
    }
    BadTopRowRejected("$A", "$C", 'A', "", maxColumn, maxRow);
  }
}
