/** `merge_holdings` of the FDF parser
    (fdf-proj/sandbox/ishares_eqy_fdf_parse.py): the Securities and
    Synthetics holdings tables, each made a table whose columns are its
    cleaned-up header, are stacked into one table over the union of their
    columns, cells a table lacks left empty. */
module FdfMerge {
  import opened PyStr
  import opened Results
  import opened FdfErrors
  import opened FdfSections

  predicate Distinct(names: seq<string>) {
    forall i, j :: 0 <= i < j < |names| ==> names[i] != names[j]
  }

  /** The position of the first `name` in `names`. */
  function IndexIn(names: seq<string>, name: string): (r: Option<nat>)
    ensures r.Some? ==> r.value < |names| && names[r.value] == name && name !in names[..r.value]
    ensures r.None? ==> name !in names
  {
    if names == [] then None
    else if names[0] == name then Some(0)
    else
      match IndexIn(names[1..], name)
      case Some(k) => assert names[..k + 1] == [names[0]] + names[1..][..k]; Some(k + 1)
      case None => None
  }

  /** A row widened to `n` cells with empty strings (the `NaN` that
      `fillna('')` turns into `''`). */
  function PadRow(row: seq<string>, n: nat): (r: seq<string>)
    requires |row| <= n
    ensures |r| == n && r[..|row|] == row && forall k :: |row| <= k < n ==> r[k] == ""
  {
    row + seq(n - |row|, _ => "")
  }

  /** `pd.DataFrame(body, columns=header)`: the body is as wide as its
      widest row, which must match the header; shorter rows are padded. An
      empty body makes an empty table. */
  function Frame(header: seq<string>, body: seq<seq<string>>): (r: Result<seq<seq<string>>, Error>)
    ensures r.Ok? <==> body == [] || Width(body) == |header|
    ensures r.Err? ==> r.error == ColumnCountMismatch
    ensures r.Ok? ==> |r.value| == |body| && forall k :: 0 <= k < |body| ==>
      |body[k]| <= |header| && r.value[k] == PadRow(body[k], |header|)
  {
    if body != [] && Width(body) != |header| then Err(ColumnCountMismatch)
    else Ok(seq(|body|, k requires 0 <= k < |body| => PadRow(body[k], |header|)))
  }

  /** The Synthetics columns the Securities header lacks, in their order. */
  function NewColumns(secH: seq<string>, synH: seq<string>): (r: seq<string>)
    ensures forall x :: x in r <==> x in synH && x !in secH
    ensures Distinct(synH) ==> Distinct(r)
  {
    if synH == [] then []
    else
      var last := synH[|synH| - 1];
      var prefix := synH[..|synH| - 1];
      assert synH == prefix + [last];
      NewColumns(secH, prefix) + (if last in secH then [] else [last])
  }

  /** A row of a table with columns `header` laid out over `cols`: each
      column takes the row's cell under the same name, or `''`. */
  function Realign(header: seq<string>, row: seq<string>, cols: seq<string>): (r: seq<string>)
    requires |row| == |header|
    ensures |r| == |cols|
  {
    seq(|cols|, c requires 0 <= c < |cols| =>
      match IndexIn(header, cols[c])
      case Some(k) => row[k]
      case None => "")
  }

  function Realigned(header: seq<string>, frame: seq<seq<string>>, cols: seq<string>): (r: seq<seq<string>>)
    requires forall k :: 0 <= k < |frame| ==> |frame[k]| == |header|
    ensures |r| == |frame|
  {
    seq(|frame|, k requires 0 <= k < |frame| => Realign(header, frame[k], cols))
  }

  /** The cleaned-up header of a section. */
  function HeaderOf(section: seq<string>): seq<string>
    requires section != []
  {
    CanonFields(Split(section[0], ','))
  }

  /** The Securities body: the header and the last (aggregate) row are
      dropped. */
  function SecBody(sec: seq<string>): seq<seq<string>>
    requires sec != []
  {
    if |sec| >= 2 then SplitRows(sec[1..|sec| - 1]) else []
  }

  /** The Synthetics body: everything after the header. */
  function SynBody(syn: seq<string>): seq<seq<string>>
    requires syn != []
  {
    SplitRows(syn[1..])
  }

  /** `pd.concat` of the two tables: the columns stay as they are when
      both headers are the same list; otherwise they are the Securities
      ones followed by the new Synthetics ones, and a repeated name makes
      the reindexing fail. */
  function Stack(secH: seq<string>, synH: seq<string>, secF: seq<seq<string>>, synF: seq<seq<string>>)
    : Result<seq<seq<string>>, Error>
    requires forall k :: 0 <= k < |secF| ==> |secF[k]| == |secH|
    requires forall k :: 0 <= k < |synF| ==> |synF[k]| == |synH|
  {
    if secH == synH then Ok([secH] + secF + synF)
    else if !Distinct(secH) || !Distinct(synH) then Err(DuplicateColumns)
    else
      var cols := secH + NewColumns(secH, synH);
      Ok([cols] + Realigned(secH, secF, cols) + Realigned(synH, synF, cols))
  }

  /** The merged table, header first, before its rows are pipe-joined. */
  function MergedTable(sec: seq<string>, syn: seq<string>): Result<seq<seq<string>>, Error> {
    if sec == [] || syn == [] then Err(NoRows)
    else
      var secH, synH := HeaderOf(sec), HeaderOf(syn);
      var secF :- Frame(secH, SecBody(sec));
      var synF :- Frame(synH, SynBody(syn));
      Stack(secH, synH, secF, synF)
  }

  /** What `merge_holdings([sec, syn])` returns. */
  function MergeHoldings(sec: seq<string>, syn: seq<string>): Result<seq<string>, Error> {
    var table :- MergedTable(sec, syn);
    Ok(seq(|table|, k requires 0 <= k < |table| => Join(table[k], '|')))
  }

  /** When the merge fails, and why: a missing section, a table whose rows
      are not as wide as its header, or a repeated column name in headers
      that differ. */
  lemma MergeErrors(sec: seq<string>, syn: seq<string>)
    ensures MergedTable(sec, syn).Err? <==>
      sec == [] || syn == []
      || (SecBody(sec) != [] && Width(SecBody(sec)) != |HeaderOf(sec)|)
      || (SynBody(syn) != [] && Width(SynBody(syn)) != |HeaderOf(syn)|)
      || (HeaderOf(sec) != HeaderOf(syn) && !(Distinct(HeaderOf(sec)) && Distinct(HeaderOf(syn))))
  {
  }

  /** The parts a successful merge is built from. */
  lemma MergedParts(sec: seq<string>, syn: seq<string>)
    requires MergedTable(sec, syn).Ok?
    ensures sec != [] && syn != []
    ensures Frame(HeaderOf(sec), SecBody(sec)).Ok? && Frame(HeaderOf(syn), SynBody(syn)).Ok?
    ensures var secF, synF := Frame(HeaderOf(sec), SecBody(sec)).value, Frame(HeaderOf(syn), SynBody(syn)).value;
      (forall k :: 0 <= k < |secF| ==> |secF[k]| == |HeaderOf(sec)|)
      && (forall k :: 0 <= k < |synF| ==> |synF[k]| == |HeaderOf(syn)|)
      && MergedTable(sec, syn) == Stack(HeaderOf(sec), HeaderOf(syn), secF, synF)
  {
  }

  /** The stacked header is the union of both headers, each name once
      when the headers differ, and the table has one row per row of
      either table, every row as wide as the header. */
  lemma StackShape(secH: seq<string>, synH: seq<string>, secF: seq<seq<string>>, synF: seq<seq<string>>)
    requires forall k :: 0 <= k < |secF| ==> |secF[k]| == |secH|
    requires forall k :: 0 <= k < |synF| ==> |synF[k]| == |synH|
    requires Stack(secH, synH, secF, synF).Ok?
    ensures var t := Stack(secH, synH, secF, synF).value;
      |t| == 1 + |secF| + |synF|
      && (forall k :: 0 <= k < |t| ==> |t[k]| == |t[0]|)
      && (forall x :: x in t[0] <==> x in secH || x in synH)
      && |secH| <= |t[0]| && t[0][..|secH|] == secH
      && (secH != synH ==> Distinct(t[0]))
  {
    var t := Stack(secH, synH, secF, synF).value;
    if secH != synH {
      var cols := secH + NewColumns(secH, synH);
      assert t[0] == cols;
      forall i, j | 0 <= i < j < |cols|
        ensures cols[i] != cols[j]
      {
        if j >= |secH| {
          assert cols[j] in NewColumns(secH, synH);
          if i >= |secH| {
            assert cols[i] == NewColumns(secH, synH)[i - |secH|];
          }
        }
      }
    }
  }

  /** Securities rows keep their cells under their own columns, in order,
      and are empty under the columns only Synthetics has. */
  lemma StackSecurities(secH: seq<string>, synH: seq<string>, secF: seq<seq<string>>, synF: seq<seq<string>>, k: nat)
    requires forall k :: 0 <= k < |secF| ==> |secF[k]| == |secH|
    requires forall k :: 0 <= k < |synF| ==> |synF[k]| == |synH|
    requires Stack(secH, synH, secF, synF).Ok?
    requires k < |secF|
    ensures var t := Stack(secH, synH, secF, synF).value;
      1 + k < |t| && |secH| <= |t[0]|
      && t[1 + k] == secF[k] + seq(|t[0]| - |secH|, _ => "")
  {
    var t := Stack(secH, synH, secF, synF).value;
    StackShape(secH, synH, secF, synF);
    if secH != synH {
      var cols := secH + NewColumns(secH, synH);
      var row := t[1 + k];
      assert row == Realign(secH, secF[k], cols);
      forall c | 0 <= c < |cols|
        ensures row[c] == (if c < |secH| then secF[k][c] else "")
      {
        if c < |secH| {
          assert IndexIn(secH, cols[c]) == Some(c);
        } else {
          assert cols[c] in NewColumns(secH, synH);
        }
      }
      assert row == secF[k] + seq(|cols| - |secH|, _ => "");
    }
  }

  /** A realigned row holds, under a column of its own header, the cell it
      had under that name. */
  lemma RealignCell(header: seq<string>, row: seq<string>, cols: seq<string>, c: nat, j: nat)
    requires |row| == |header| && Distinct(header)
    requires c < |cols| && j < |header| && cols[c] == header[j]
    ensures Realign(header, row, cols)[c] == row[j]
  {
    match IndexIn(header, cols[c])
    case Some(i) => assert header[i] == header[j];
    case None =>
  }

  /** The row of a stacked table that a Synthetics row becomes. */
  lemma StackedSyntheticsRow(secH: seq<string>, synH: seq<string>, secF: seq<seq<string>>, synF: seq<seq<string>>, k: nat)
    requires forall k :: 0 <= k < |secF| ==> |secF[k]| == |secH|
    requires forall k :: 0 <= k < |synF| ==> |synF[k]| == |synH|
    requires Stack(secH, synH, secF, synF).Ok? && secH != synH && k < |synF|
    ensures var t := Stack(secH, synH, secF, synF).value;
      var cols := secH + NewColumns(secH, synH);
      Distinct(synH) && 1 + |secF| + k < |t| && t[0] == cols
      && t[1 + |secF| + k] == Realign(synH, synF[k], cols)
  {
    var cols := secH + NewColumns(secH, synH);
    var a, b := Realigned(secH, secF, cols), Realigned(synH, synF, cols);
    assert ([cols] + a + b)[1 + |secF| + k] == b[k];
  }

  /** Synthetics rows come after all Securities rows, and each of their
      cells sits under the column of the same name. */
  lemma StackSynthetics(secH: seq<string>, synH: seq<string>, secF: seq<seq<string>>, synF: seq<seq<string>>, k: nat, j: nat)
    requires forall k :: 0 <= k < |secF| ==> |secF[k]| == |secH|
    requires forall k :: 0 <= k < |synF| ==> |synF[k]| == |synH|
    requires Stack(secH, synH, secF, synF).Ok?
    requires k < |synF| && j < |synH|
    ensures var t := Stack(secH, synH, secF, synF).value;
      var n := 1 + |secF| + k;
      n < |t| && (exists c :: 0 <= c < |t[0]| && t[0][c] == synH[j] && t[n][c] == synF[k][j])
  {
    var t := Stack(secH, synH, secF, synF).value;
    var n := 1 + |secF| + k;
    if secH == synH {
      assert t[0][j] == synH[j] && t[n] == synF[k];
    } else {
      var cols := secH + NewColumns(secH, synH);
      StackedSyntheticsRow(secH, synH, secF, synF, k);
      assert synH[j] in cols;
      var c :| 0 <= c < |cols| && cols[c] == synH[j];
      RealignCell(synH, synF[k], cols, c, j);
      assert t[0][c] == synH[j] && t[n][c] == synF[k][j];
    }
  }

  /** Under a column Synthetics lacks, every Synthetics row is empty. */
  lemma StackSyntheticsMissing(secH: seq<string>, synH: seq<string>, secF: seq<seq<string>>, synF: seq<seq<string>>, k: nat, c: nat)
    requires forall k :: 0 <= k < |secF| ==> |secF[k]| == |secH|
    requires forall k :: 0 <= k < |synF| ==> |synF[k]| == |synH|
    requires Stack(secH, synH, secF, synF).Ok?
    requires k < |synF|
    requires var t := Stack(secH, synH, secF, synF).value; c < |t[0]| && t[0][c] !in synH
    ensures var t := Stack(secH, synH, secF, synF).value;
      1 + |secF| + k < |t| && t[1 + |secF| + k][c] == ""
  {
    var t := Stack(secH, synH, secF, synF).value;
    if secH != synH {
      var cols := secH + NewColumns(secH, synH);
      assert t[1 + |secF| + k] == Realign(synH, synF[k], cols);
    }
  }
}
