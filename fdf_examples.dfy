/** The repository's unit tests of the FDF parser
    (fdf-proj/sandbox/tests/test_ishares_eqy_fdf_parse.py), each stated as
    a lemma about the model: the model gives the results those tests
    expect. Each concrete case is an instance of a lemma over arbitrary
    strings of the same shape. */
module FdfExamples {
  import opened PyStr
  import opened Results
  import opened Dates
  import opened FdfSections
  import opened FdfMerge

  // ---------------------------------------------------------------------
  // parse_data

  lemma StripBare(s: string)
    requires |s| > 0 && !IsSpace(s[0]) && !IsSpace(s[|s| - 1])
    ensures Strip(s) == s
  {
  }

  /** `test_parse_data`: the lines between `A Lvl` and the first empty
      line after it. */
  lemma ParseDataTest()
    ensures Section(["A Lvl", "A1", "A2", "", "B Lvl", "B1"], "A Lvl", "") == Ok(["A1", "A2"])
  {
    var lines := ["A Lvl", "A1", "A2", "", "B Lvl", "B1"];
    StripBare("A Lvl");
    StripBare("A1");
    StripBare("A2");
    assert Strip("") == "";
    var keys := Stripped(lines);
    assert keys[0] == "A Lvl" && keys[1] == "A1" && keys[2] == "A2" && keys[3] == "";
    assert FindFrom(keys, 0, "A Lvl") == Some(0);
    assert FindFrom(keys, 0, "") == Some(3);
    assert lines[1..3] == ["A1", "A2"];
  }

  // ---------------------------------------------------------------------
  // transpose

  /** A field with no comma, no pipe and no `o` (so no `None` either). */
  predicate Plain(s: string) {
    ',' !in s && '|' !in s && 'o' !in s
  }

  /** Rows of two fields pass the loop of `transpose` unchanged. */
  lemma ExpandPairs(split: seq<seq<string>>)
    requires |split| == 2 && |split[0]| == 2 && |split[1]| == 2
    ensures Expand(split) == split && Width(split) == 2
  {
    assert split[..1][..0] == [];
    assert Expand(split[..1]) == [split[0]];
    assert split[..2][..1] == split[..1];
    assert split[..2] == split;
  }

  lemma TransposedRowPair(split: seq<seq<string>>, i: nat, x: string, y: string)
    requires |split| == 2 && Cell(split[0], i) == x && Cell(split[1], i) == y
    ensures TransposedRow(split, i) == x + "|" + y
  {
    var cells := seq(|split|, j requires 0 <= j < |split| => Cell(split[j], i));
    assert cells == [x, y];
    assert [x, y][1..] == [y];
    assert Join([x, y], '|') == x + "|" + y;
  }

  /** Two two-field rows transpose to two two-field rows. */
  lemma TransposeTwoByTwo(a: string, b: string, c: string, d: string)
    requires Plain(a) && Plain(b) && Plain(c) && Plain(d)
    ensures Transposed([a + "," + b, c + "," + d]) == [a + "|" + c, b + "|" + d]
  {
    var rows := [a + "," + b, c + "," + d];
    var split := [[a, b], [c, d]];
    assert SplitRows(rows) == split by {
      SplitTwo(a, b, ',');
      SplitTwo(c, d, ',');
    }
    ExpandPairs(split);
    CellPlain([a, b], 0);
    CellPlain([c, d], 0);
    CellPlain([a, b], 1);
    CellPlain([c, d], 1);
    TransposedRowPair(split, 0, a, c);
    TransposedRowPair(split, 1, b, d);
    TransposedOf(rows, split);
    TransposedTwo(split, a + "|" + c, b + "|" + d);
  }

  /** `transpose` leaves a plain field as it is. */
  lemma CellPlain(row: seq<string>, i: nat)
    requires i < |row| && Plain(row[i])
    ensures Cell(row, i) == row[i]
  {
    ReplaceAllMissing(row[i], "None", "", 'o');
  }

  lemma TransposedOf(rows: seq<string>, split: seq<seq<string>>)
    requires SplitRows(rows) == split && Expand(split) == split && Width(split) == 2
    ensures Transposed(rows) == seq(2, i requires 0 <= i => TransposedRow(split, i))
  {
  }

  lemma TransposedTwo(split: seq<seq<string>>, x: string, y: string)
    requires TransposedRow(split, 0) == x && TransposedRow(split, 1) == y
    ensures seq(2, i requires 0 <= i => TransposedRow(split, i)) == [x, y]
  {
  }

  lemma TransposeTestPlain(a: string, b: string, c: string, d: string)
    requires a == "Fund Ticker" && b == "IOGP" && c == "Fund ISIN" && d == "IE00B6R51Z18"
    ensures Plain(a) && Plain(b) && Plain(c) && Plain(d)
  {
  }

  /** `test_transpose`. */
  lemma TransposeTest(rows: seq<string>)
    requires rows == ["Fund Ticker,IOGP", "Fund ISIN,IE00B6R51Z18"]
    ensures Transposed(rows) == ["Fund Ticker|Fund ISIN", "IOGP|IE00B6R51Z18"]
  {
    var a, b, c, d := "Fund Ticker", "IOGP", "Fund ISIN", "IE00B6R51Z18";
    assert rows == [a + "," + b, c + "," + d] by {
      assert a + "," + b == "Fund Ticker,IOGP";
      assert c + "," + d == "Fund ISIN,IE00B6R51Z18";
    }
    assert ["Fund Ticker|Fund ISIN", "IOGP|IE00B6R51Z18"] == [a + "|" + c, b + "|" + d] by {
      assert a + "|" + c == "Fund Ticker|Fund ISIN";
      assert b + "|" + d == "IOGP|IE00B6R51Z18";
    }
    TransposeTestPlain(a, b, c, d);
    TransposeTwoByTwo(a, b, c, d);
  }

  // ---------------------------------------------------------------------
  // format_date

  lemma FormatDateRowOne(f: string)
    requires '|' !in f
    ensures FormatDateRow(f) == FormatField(f)
  {
    assert Split(f, '|') == [f];
    assert FormatFields([f]) == [FormatField(f)];
  }

  lemma FormatDateRowTwo(f: string, g: string)
    requires '|' !in f && '|' !in g
    ensures FormatDateRow(f + "|" + g) == FormatField(f) + "|" + FormatField(g)
  {
    SplitTwo(f, g, '|');
    assert FormatFields([f, g]) == [FormatField(f), FormatField(g)];
    JoinTwo(FormatField(f), FormatField(g), '|');
  }

  /** Two rows of one field each, and the same rows with a second field
      that `format_date` leaves alone. */
  lemma FormatDatePairs(rows: seq<string>, piped: seq<string>, s: string, t: string, x: string, fs: string, ft: string)
    requires '|' !in s && '|' !in t && '|' !in x
    requires FormatField(s) == fs && FormatField(t) == ft && FormatField(x) == x
    requires rows == [s, t] && piped == [s + "|" + x, t + "|" + x]
    ensures FormattedDates(rows) == [fs, ft]
    ensures FormattedDates(piped) == [fs + "|" + x, ft + "|" + x]
  {
    FormatDateRowOne(s);
    FormatDateRowOne(t);
    FormatDateRowTwo(s, x);
    FormatDateRowTwo(t, x);
  }

  /** A field that is not a date is left as it is. */
  lemma FormatFieldOne(one: string)
    requires one == "1"
    ensures FormatField(one) == one
  {
  }

  lemma FormatFieldOf(s: string, d: Date)
    requires ParseDate(s) == Some(d)
    ensures Valid(d) && FormatField(s) == Iso(d)
  {
  }

  /** `test_format_date`: its two dates, each rewritten to ISO form. */
  lemma FormatDateTest(jan: string, oct: string)
    requires jan == "Jan 24 2019" && oct == "Oct 7 1991"
    ensures FormatField(jan) == "2019-01-24" && FormatField(oct) == "1991-10-07"
  {
    ExampleJan24(jan);
    ExampleOct7(oct);
    FormatFieldOf(jan, Date(2019, 1, 24));
    FormatFieldOf(oct, Date(1991, 10, 7));
  }

  // ---------------------------------------------------------------------
  // format_header

  lemma CanonPaddedA()
    ensures Canon("    a") == "a"
  {
    assert LStrip("    a") == "a";
    assert RStrip("a") == "a";
    assert Lower("a") == "a";
  }

  lemma CanonSpacedBC()
    ensures Canon(" b c") == "b_c"
  {
    assert LStrip(" b c") == "b c";
    assert RStrip("b c") == "b c";
    assert Lower("b c") == "b c";
    assert ReplaceChar("b c", ' ', '_') == "b_c";
  }

  lemma CanonSpacedD()
    ensures Canon(" D") == "d"
  {
    assert LStrip(" D") == "D";
    assert RStrip("D") == "D";
    assert Lower("D") == "d";
  }

  /** A three-field header is cleaned up field by field. */
  lemma FormatHeaderThree(h0: string, h1: string, h2: string, rest: seq<string>, c0: string, c1: string, c2: string)
    requires ',' !in h0 && ',' !in h1 && ',' !in h2
    requires Canon(h0) == c0 && Canon(h1) == c1 && Canon(h2) == c2
    ensures FormatHeader([h0 + "," + h1 + "," + h2] + rest) == Ok([c0 + "|" + c1 + "|" + c2] + rest)
  {
    SplitThree(h0, h1, h2, ',');
    assert CanonFields([h0, h1, h2]) == [c0, c1, c2];
    JoinThree(c0, c1, c2, '|');
    assert ([h0 + "," + h1 + "," + h2] + rest)[1..] == rest;
  }

  /** `test_format_header`. */
  lemma FormatHeaderTest()
    ensures FormatHeader(["    a, b c, D", "1,2,3"]) == Ok(["a|b_c|d", "1,2,3"])
  {
    var h0, h1, h2 := "    a", " b c", " D";
    assert h0 + "," + h1 + "," + h2 == "    a, b c, D";
    assert "a" + "|" + "b_c" + "|" + "d" == "a|b_c|d";
    assert [h0 + "," + h1 + "," + h2] + ["1,2,3"] == ["    a, b c, D", "1,2,3"];
    assert ["a" + "|" + "b_c" + "|" + "d"] + ["1,2,3"] == ["a|b_c|d", "1,2,3"];
    CanonPaddedA();
    CanonSpacedBC();
    CanonSpacedD();
    FormatHeaderThree(h0, h1, h2, ["1,2,3"], "a", "b_c", "d");
  }

  // ---------------------------------------------------------------------
  // merge_holdings

  lemma CanonUpper(ch: char)
    requires IsUpper(ch)
    ensures Canon([ch]) == [LowerChar(ch)]
  {
    assert LStrip([ch]) == [ch];
    assert RStrip([ch]) == [ch];
  }

  lemma JoinTrailingEmpty(a: string, b: string, c: string)
    ensures Join([a, b, c, ""], '|') == a + "|" + b + "|" + c + "|"
  {
    JoinFour(a, b, c, "", '|');
    assert a + "|" + b + "|" + c + "|" + "" == a + "|" + b + "|" + c + "|";
  }

  lemma JoinLeadingEmpty(a: string, b: string, c: string)
    ensures Join(["", a, b, c], '|') == "|" + a + "|" + b + "|" + c
  {
    JoinFour("", a, b, c, '|');
    assert "" + "|" + a + "|" + b + "|" + c == "|" + a + "|" + b + "|" + c;
  }

  lemma JoinedRows(table: seq<seq<string>>, x: string, y: string, z: string)
    requires |table| == 3
    requires Join(table[0], '|') == x && Join(table[1], '|') == y && Join(table[2], '|') == z
    ensures seq(|table|, k requires 0 <= k < |table| => Join(table[k], '|')) == [x, y, z]
  {
  }

  /** A one-row body as wide as its header makes a one-row table. */
  lemma FrameOne(header: seq<string>, row: seq<string>)
    requires |row| == |header|
    ensures Frame(header, [row]) == Ok([row])
  {
    assert [row][..0] == [];
    assert Width([row]) == |header|;
    assert PadRow(row, |header|) == row;
    assert seq(1, k requires 0 <= k < 1 => PadRow([row][k], |header|)) == [row];
  }

  /** Of the columns `b c d`, only `d` is new to `a b c`. */
  lemma NewColumnsShifted(a: string, b: string, c: string, d: string)
    requires a != b && a != c && a != d && b != c && b != d && c != d
    ensures NewColumns([a, b, c], [b, c, d]) == [d]
  {
    var secH, synH := [a, b, c], [b, c, d];
    assert synH[..2] == [b, c] && [b, c][..1] == [b] && [b][..0] == [];
    assert NewColumns(secH, [b]) == [];
    assert NewColumns(secH, [b, c]) == [];
  }

  lemma RealignFirst(a: string, b: string, c: string, d: string, r0: string, r1: string, r2: string)
    requires a != b && a != c && a != d && b != c && b != d && c != d
    ensures Realigned([a, b, c], [[r0, r1, r2]], [a, b, c, d]) == [[r0, r1, r2, ""]]
  {
    var secH := [a, b, c];
    assert IndexIn(secH, a) == Some(0);
    assert IndexIn(secH, b) == Some(1);
    assert IndexIn(secH, c) == Some(2);
    assert IndexIn(secH, d) == None;
    assert Realign(secH, [r0, r1, r2], [a, b, c, d]) == [r0, r1, r2, ""];
  }

  lemma RealignSecond(a: string, b: string, c: string, d: string, u0: string, u1: string, u2: string)
    requires a != b && a != c && a != d && b != c && b != d && c != d
    ensures Realigned([b, c, d], [[u0, u1, u2]], [a, b, c, d]) == [["", u0, u1, u2]]
  {
    var synH := [b, c, d];
    assert IndexIn(synH, a) == None;
    assert IndexIn(synH, b) == Some(0);
    assert IndexIn(synH, c) == Some(1);
    assert IndexIn(synH, d) == Some(2);
    assert Realign(synH, [u0, u1, u2], [a, b, c, d]) == ["", u0, u1, u2];
  }

  /** Stacking a table over columns `a b c` on one over `b c d`: the
      columns are `a b c d`, the first table's row gains an empty last
      cell and the second's an empty first cell. */
  lemma StackShifted(a: string, b: string, c: string, d: string,
                     r0: string, r1: string, r2: string, u0: string, u1: string, u2: string)
    requires a != b && a != c && a != d && b != c && b != d && c != d
    ensures Stack([a, b, c], [b, c, d], [[r0, r1, r2]], [[u0, u1, u2]])
      == Ok([[a, b, c, d], [r0, r1, r2, ""], ["", u0, u1, u2]])
  {
    var secH, synH := [a, b, c], [b, c, d];
    var cols := [a, b, c, d];
    assert secH != synH by { assert secH[0] != synH[0]; }
    NewColumnsShifted(a, b, c, d);
    assert secH + [d] == cols;
    assert Distinct(secH) && Distinct(synH);
    RealignFirst(a, b, c, d, r0, r1, r2);
    RealignSecond(a, b, c, d, u0, u1, u2);
    assert [cols] + [[r0, r1, r2, ""]] + [["", u0, u1, u2]] == [[a, b, c, d], [r0, r1, r2, ""], ["", u0, u1, u2]];
  }

  lemma HeadersShifted(hA: string, hB: string, hC: string, hD: string, a: string, b: string, c: string, d: string,
                       row: string, agg: string, row2: string)
    requires ',' !in hA && ',' !in hB && ',' !in hC && ',' !in hD
    requires Canon(hA) == a && Canon(hB) == b && Canon(hC) == c && Canon(hD) == d
    ensures HeaderOf([hA + "," + hB + "," + hC, row, agg]) == [a, b, c]
    ensures HeaderOf([hB + "," + hC + "," + hD, row2]) == [b, c, d]
  {
    HeaderThree([hA + "," + hB + "," + hC, row, agg], hA, hB, hC, a, b, c);
    HeaderThree([hB + "," + hC + "," + hD, row2], hB, hC, hD, b, c, d);
  }

  /** A three-field header row reads as its three cleaned-up names. */
  lemma HeaderThree(section: seq<string>, h0: string, h1: string, h2: string, c0: string, c1: string, c2: string)
    requires section != [] && section[0] == h0 + "," + h1 + "," + h2
    requires ',' !in h0 && ',' !in h1 && ',' !in h2
    requires Canon(h0) == c0 && Canon(h1) == c1 && Canon(h2) == c2
    ensures HeaderOf(section) == [c0, c1, c2]
  {
    SplitThree(h0, h1, h2, ',');
    assert CanonFields([h0, h1, h2]) == [c0, c1, c2];
  }

  lemma BodiesShifted(h: string, h2: string, r0: string, r1: string, r2: string, agg: string, u0: string, u1: string, u2: string)
    requires ',' !in r0 && ',' !in r1 && ',' !in r2 && ',' !in u0 && ',' !in u1 && ',' !in u2
    ensures SecBody([h, r0 + "," + r1 + "," + r2, agg]) == [[r0, r1, r2]]
    ensures SynBody([h2, u0 + "," + u1 + "," + u2]) == [[u0, u1, u2]]
  {
    var sec := [h, r0 + "," + r1 + "," + r2, agg];
    var syn := [h2, u0 + "," + u1 + "," + u2];
    SplitThree(r0, r1, r2, ',');
    SplitThree(u0, u1, u2, ',');
    assert sec[1..|sec| - 1] == [sec[1]] && syn[1..] == [syn[1]];
  }

  /** The table `merge_holdings` builds before joining its rows. */
  lemma MergedShifted(hA: string, hB: string, hC: string, hD: string, a: string, b: string, c: string, d: string,
                      r0: string, r1: string, r2: string, agg: string, u0: string, u1: string, u2: string)
    requires ',' !in hA && ',' !in hB && ',' !in hC && ',' !in hD
    requires ',' !in r0 && ',' !in r1 && ',' !in r2 && ',' !in u0 && ',' !in u1 && ',' !in u2
    requires Canon(hA) == a && Canon(hB) == b && Canon(hC) == c && Canon(hD) == d
    requires a != b && a != c && a != d && b != c && b != d && c != d
    ensures MergedTable([hA + "," + hB + "," + hC, r0 + "," + r1 + "," + r2, agg],
                        [hB + "," + hC + "," + hD, u0 + "," + u1 + "," + u2])
      == Ok([[a, b, c, d], [r0, r1, r2, ""], ["", u0, u1, u2]])
  {
    var sec := [hA + "," + hB + "," + hC, r0 + "," + r1 + "," + r2, agg];
    var syn := [hB + "," + hC + "," + hD, u0 + "," + u1 + "," + u2];
    HeadersShifted(hA, hB, hC, hD, a, b, c, d, r0 + "," + r1 + "," + r2, agg, u0 + "," + u1 + "," + u2);
    BodiesShifted(hA + "," + hB + "," + hC, hB + "," + hC + "," + hD, r0, r1, r2, agg, u0, u1, u2);
    FrameOne([a, b, c], [r0, r1, r2]);
    FrameOne([b, c, d], [u0, u1, u2]);
    StackShifted(a, b, c, d, r0, r1, r2, u0, u1, u2);
  }

  /** Securities with columns `A B C`, one data row and an aggregate row,
      merged with Synthetics with columns `B C D` and one data row. */
  lemma MergeShifted(hA: string, hB: string, hC: string, hD: string, a: string, b: string, c: string, d: string,
                     r0: string, r1: string, r2: string, agg: string, u0: string, u1: string, u2: string)
    requires ',' !in hA && ',' !in hB && ',' !in hC && ',' !in hD
    requires ',' !in r0 && ',' !in r1 && ',' !in r2 && ',' !in u0 && ',' !in u1 && ',' !in u2
    requires Canon(hA) == a && Canon(hB) == b && Canon(hC) == c && Canon(hD) == d
    requires a != b && a != c && a != d && b != c && b != d && c != d
    ensures MergeHoldings([hA + "," + hB + "," + hC, r0 + "," + r1 + "," + r2, agg],
                          [hB + "," + hC + "," + hD, u0 + "," + u1 + "," + u2])
      == Ok([a + "|" + b + "|" + c + "|" + d, r0 + "|" + r1 + "|" + r2 + "|", "|" + u0 + "|" + u1 + "|" + u2])
  {
    var sec := [hA + "," + hB + "," + hC, r0 + "," + r1 + "," + r2, agg];
    var syn := [hB + "," + hC + "," + hD, u0 + "," + u1 + "," + u2];
    var table := [[a, b, c, d], [r0, r1, r2, ""], ["", u0, u1, u2]];
    MergedShifted(hA, hB, hC, hD, a, b, c, d, r0, r1, r2, agg, u0, u1, u2);
    JoinFour(a, b, c, d, '|');
    JoinTrailingEmpty(r0, r1, r2);
    JoinLeadingEmpty(u0, u1, u2);
    JoinedRows(table, a + "|" + b + "|" + c + "|" + d, r0 + "|" + r1 + "|" + r2 + "|", "|" + u0 + "|" + u1 + "|" + u2);
  }

  /** `test_merge_holdings`: the aggregate row is dropped, the columns are
      united, and the cells a table lacks are empty. */
  lemma MergeHoldingsTest()
    ensures MergeHoldings(["A,B,C", "1,2,3", "REMOVE ME,,"], ["B,C,D", "4,5,6"])
      == Ok(["a|b|c|d", "1|2|3|", "|4|5|6"])
  {
    assert "A" + "," + "B" + "," + "C" == "A,B,C";
    assert "1" + "," + "2" + "," + "3" == "1,2,3";
    assert "B" + "," + "C" + "," + "D" == "B,C,D";
    assert "4" + "," + "5" + "," + "6" == "4,5,6";
    assert "a" + "|" + "b" + "|" + "c" + "|" + "d" == "a|b|c|d";
    assert "1" + "|" + "2" + "|" + "3" + "|" == "1|2|3|";
    assert "|" + "4" + "|" + "5" + "|" + "6" == "|4|5|6";
    CanonUpper('A');
    CanonUpper('B');
    CanonUpper('C');
    CanonUpper('D');
    MergeShifted("A", "B", "C", "D", "a", "b", "c", "d", "1", "2", "3", "REMOVE ME,,", "4", "5", "6");
  }
}
