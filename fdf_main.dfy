/** The driver of the FDF parser (fdf-proj/sandbox/ishares_eqy_fdf_parse.py,
    `GRAINS`, `confirm_grain_is_valid` and `main`): pick the section(s) for
    the requested grain, reshape them, and write them to the output file
    with three provenance columns, or append them when the file already
    starts with the same header. */
module FdfMain {
  import opened PyStr
  import opened Results
  import opened FdfErrors
  import opened FdfSections
  import opened FdfMerge
  import opened FdfValidate
  import Dates

  // ---------------------------------------------------------------------
  // GRAINS

  /** The kinds of data the parser can be asked for. */
  datatype Grain = Fund | Basket | Spreads | Allocations | Holdings | Fx | Forwards | Swaps

  /** The key of a grain in `GRAINS`. */
  function Name(g: Grain): string {
    match g
    case Fund => "fund"
    case Basket => "basket"
    case Spreads => "spreads"
    case Allocations => "allocations"
    case Holdings => "holdings"
    case Fx => "fx"
    case Forwards => "forwards"
    case Swaps => "swaps"
  }

  /** The grain a command-line name selects, if any. */
  function GrainOf(name: string): Option<Grain> {
    if name == "fund" then Some(Fund)
    else if name == "basket" then Some(Basket)
    else if name == "spreads" then Some(Spreads)
    else if name == "allocations" then Some(Allocations)
    else if name == "holdings" then Some(Holdings)
    else if name == "fx" then Some(Fx)
    else if name == "forwards" then Some(Forwards)
    else if name == "swaps" then Some(Swaps)
    else None
  }

  /** Every grain is selected by its own name and by nothing else. */
  lemma GrainNames(g: Grain, name: string)
    ensures GrainOf(Name(g)) == Some(g)
    ensures GrainOf(name) == Some(g) ==> name == Name(g)
  {
  }

  /** The section start markers of a grain, the values of `GRAINS`. */
  function Markers(g: Grain): (r: seq<string>)
    ensures |r| == if g == Holdings then 2 else 1
  {
    match g
    case Fund => ["Fund Level"]
    case Basket => ["Basket Level"]
    case Spreads => ["Spreads"]
    case Allocations => ["Allocation Details"]
    case Holdings => ["Holdings: Securities", "Holdings: Synthetics"]
    case Fx => ["FX Rates"]
    case Forwards => ["FX Forwards"]
    case Swaps => ["Swaps"]
  }

  /** `confirm_grain_is_valid`: an unknown name stops the run. */
  function ConfirmGrainIsValid(name: string): (r: Result<Grain, Error>)
    ensures r.Ok? ==> Name(r.value) == name
    ensures r.Err? ==> r.error == UnknownGrain(name) && forall g :: Name(g) != name
  {
    match GrainOf(name)
    case Some(g) => GrainNames(g, name); Ok(g)
    case None => GrainNamesTotal(name); Err(UnknownGrain(name))
  }

  lemma GrainNamesTotal(name: string)
    requires GrainOf(name).None?
    ensures forall g :: Name(g) != name
  {
    forall g ensures Name(g) != name {
      GrainNames(g, name);
    }
  }

  // ---------------------------------------------------------------------
  // The grain dispatch of main

  /** The header `main` gives the FX Rates table in place of its own. */
  const FxHeader: string := "currency,spot_rate"

  /** The rows `main` prepares for the output file (`outfile_rows`). Each
      grain has its own pipeline; every section ends at the first blank
      line. */
  function Transform(g: Grain, lines: seq<string>): (r: Result<seq<string>, Error>)
    ensures r.Ok? ==> r.value != []
  {
    match g
    case Holdings => HoldingsRows(lines)
    case Fx => FxRows(lines)
    case Forwards => HeaderedRows(lines, Markers(g)[0])
    case Spreads | Allocations => PipedRows(lines, Markers(g)[0])
    case Fund | Basket | Swaps => TransposedRows(lines, Markers(g)[0])
  }

  /** Holdings: both sections merged. */
  function HoldingsRows(lines: seq<string>): (r: Result<seq<string>, Error>)
    ensures r.Ok? ==> r.value != []
  {
    var sec :- Section(lines, Markers(Holdings)[0], "");
    var syn :- Section(lines, Markers(Holdings)[1], "");
    MergeNonEmpty(sec, syn);
    MergeHoldings(sec, syn)
  }

  /** FX Rates: the section's own header replaced by `FxHeader`, its rows
      kept as they are. */
  function FxRows(lines: seq<string>): (r: Result<seq<string>, Error>)
    ensures r.Ok? ==> r.value != [] && r.value[0] == FxHeader
  {
    var rows :- Section(lines, Markers(Fx)[0], "");
    Ok([FxHeader] + (if rows == [] then [] else rows[1..]))
  }

  /** FX Forwards: the section with its header cleaned up. */
  function HeaderedRows(lines: seq<string>, marker: string): (r: Result<seq<string>, Error>)
    ensures r.Ok? ==> r.value != []
  {
    var rows :- Section(lines, marker, "");
    FormatHeader(rows)
  }

  /** Spreads and Allocation Details: header cleaned up, then every comma
      made a pipe. */
  function PipedRows(lines: seq<string>, marker: string): (r: Result<seq<string>, Error>)
    ensures r.Ok? ==> r.value != []
  {
    var rows :- Section(lines, marker, "");
    var formatted :- FormatHeader(rows);
    Ok(seq(|formatted|, k requires 0 <= k < |formatted| => ReplaceChar(formatted[k], ',', '|')))
  }

  /** Fund Level, Basket Level and Swaps: transposed, dates rewritten,
      header cleaned up. */
  function TransposedRows(lines: seq<string>, marker: string): (r: Result<seq<string>, Error>)
    ensures r.Ok? ==> r.value != []
  {
    var rows :- Section(lines, marker, "");
    FormatHeader(FormattedDates(Transposed(rows)))
  }

  /** The grain dispatch of `main`, run step by step. */
  method Dispatch(g: Grain, lines: seq<string>) returns (r: Result<seq<string>, Error>)
    ensures r == Transform(g, lines)
  {
    match g {
      case Holdings =>
        var sec := ParseData(lines, Markers(g)[0], "");
        if sec.Err? { return Err(sec.error); }
        var syn := ParseData(lines, Markers(g)[1], "");
        if syn.Err? { return Err(syn.error); }
        r := MergeHoldings(sec.value, syn.value);
      case Fx =>
        var rows := ParseData(lines, Markers(g)[0], "");
        if rows.Err? { return Err(rows.error); }
        var fxRows := if rows.value == [] then [] else rows.value[1..];
        r := Ok([FxHeader] + fxRows);
      case Forwards =>
        var rows := ParseData(lines, Markers(g)[0], "");
        if rows.Err? { return Err(rows.error); }
        r := FormatHeader(rows.value);
      case Spreads =>
        r := RunPiped(lines, Markers(g)[0]);
      case Allocations =>
        r := RunPiped(lines, Markers(g)[0]);
      case Fund =>
        r := RunTransposed(lines, Markers(g)[0]);
      case Basket =>
        r := RunTransposed(lines, Markers(g)[0]);
      case Swaps =>
        r := RunTransposed(lines, Markers(g)[0]);
    }
  }

  lemma MergeNonEmpty(sec: seq<string>, syn: seq<string>)
    ensures MergeHoldings(sec, syn).Ok? ==> MergeHoldings(sec, syn).value != []
  {
    if MergeHoldings(sec, syn).Ok? {
      MergedParts(sec, syn);
      StackShape(HeaderOf(sec), HeaderOf(syn), Frame(HeaderOf(sec), SecBody(sec)).value,
        Frame(HeaderOf(syn), SynBody(syn)).value);
    }
  }

  /** The Spreads and Allocation Details pipeline, run step by step. */
  method RunPiped(lines: seq<string>, marker: string) returns (r: Result<seq<string>, Error>)
    ensures r == PipedRows(lines, marker)
  {
    var rows := ParseData(lines, marker, "");
    if rows.Err? { return Err(rows.error); }
    var formatted := FormatHeader(rows.value);
    if formatted.Err? { return Err(formatted.error); }
    var piped: seq<string> := [];
    var i := 0;
    while i < |formatted.value|
      invariant 0 <= i <= |formatted.value|
      invariant piped == seq(i, k requires 0 <= k < i => ReplaceChar(formatted.value[k], ',', '|'))
    {
      piped := piped + [ReplaceChar(formatted.value[i], ',', '|')];
      i := i + 1;
    }
    r := Ok(piped);
  }

  /** The Fund Level, Basket Level and Swaps pipeline, run step by step. */
  method RunTransposed(lines: seq<string>, marker: string) returns (r: Result<seq<string>, Error>)
    ensures r == TransposedRows(lines, marker)
  {
    var rows := ParseData(lines, marker, "");
    if rows.Err? { return Err(rows.error); }
    var transposed := Transpose(rows.value);
    var dated, _, _ := FormatDate(transposed);
    r := FormatHeader(dated);
  }

  /** Spreads and Allocation Details rows come out with no comma left. */
  lemma SpreadsHaveNoCommas(g: Grain, lines: seq<string>)
    requires g == Spreads || g == Allocations
    requires Transform(g, lines).Ok?
    ensures forall k :: 0 <= k < |Transform(g, lines).value| ==> ',' !in Transform(g, lines).value[k]
  {
    var rows := Section(lines, Markers(g)[0], "").value;
    var formatted := FormatHeader(rows).value;
    var out := Transform(g, lines).value;
    forall k | 0 <= k < |out|
      ensures ',' !in out[k]
    {
      assert out[k] == ReplaceChar(formatted[k], ',', '|');
    }
  }

  /** The transposed grains fail only when their section is missing or
      transposes to nothing; otherwise they are the transposed section,
      dates rewritten, with the first row cleaned up as a header and
      nothing else dropped. */
  lemma TransformTransposed(g: Grain, lines: seq<string>)
    requires g == Fund || g == Basket || g == Swaps
    ensures var sec := Section(lines, Markers(g)[0], "");
      sec.Err? ==> Transform(g, lines) == Err(sec.error)
    ensures var sec := Section(lines, Markers(g)[0], "");
      sec.Ok? ==> (Transform(g, lines).Ok? <==> FormattedDates(Transposed(sec.value)) != [])
    ensures var sec := Section(lines, Markers(g)[0], "");
      sec.Ok? && Transform(g, lines).Ok? ==>
        var out := Transform(g, lines).value;
        var dated := FormattedDates(Transposed(sec.value));
        |out| == |dated| && out[1..] == dated[1..]
  {
  }

  // ---------------------------------------------------------------------
  // Writing and appending

  /** The file named by `--outputfile`: `main` opens it for reading
      first, so it must exist. */
  class OutputFile {
    var present: bool
    var content: string

    constructor (present: bool, content: string)
      ensures this.present == present && this.content == content
    {
      this.present := present;
      this.content := content;
    }
  }

  const InfoHeaders: string := "source_category|source_name|f_position_date|"

  /** The header line `main` writes, or compares with the first line. */
  function HeaderLine(header: string): string {
    InfoHeaders + header + "\n"
  }

  /** One data line: the provenance columns, then the row. */
  function Provenance(source: string, date: string, row: string): string {
    Category + "|" + source + "|" + date + "|" + row + "\n"
  }

  /** The category written first on every data line. */
  const Category := "iShares FTP"

  /** The data lines for all rows after the header. */
  function DataLines(source: string, date: string, rows: seq<string>): (r: seq<string>)
    ensures |r| == if rows == [] then 0 else |rows| - 1
  {
    if rows == [] then []
    else seq(|rows| - 1, k requires 0 <= k < |rows| - 1 => Provenance(source, date, rows[k + 1]))
  }

  /** `readline()`: the text up to and including the first newline, or all
      of it. */
  function FirstLine(content: string): (r: string)
    ensures r == content || IsLine(r)
    ensures StartsWith(content, r)
  {
    if '\n' in content then content[..IndexOf(content, '\n') + 1] else content
  }

  /** The file after `main`'s output step, when it exists: with the same
      header already in place the rows are appended (unless one of them is
      already there); otherwise the file is rewritten. */
  function Emitted(content: string, source: string, date: string, rows: seq<string>): Result<string, Error>
    requires rows != []
  {
    var header := HeaderLine(rows[0]);
    if header == FirstLine(content) then
      if NoOverlap(content, rows) then Ok(content + Concat(DataLines(source, date, rows)))
      else Err(DuplicateRows)
    else Ok(header + Concat(DataLines(source, date, rows)))
  }

  /** The output step of `main` on an existing or missing file. */
  method Emit(file: OutputFile, source: string, date: string, rows: seq<string>) returns (r: Outcome<Error>)
    requires rows != []
    modifies file
    ensures file.present == old(file.present)
    ensures !old(file.present) ==> r == Fail(OutputMissing)
    ensures old(file.present) ==> (r.Pass? <==> Emitted(old(file.content), source, date, rows).Ok?)
    ensures old(file.present) && r.Fail? ==> r.error == Emitted(old(file.content), source, date, rows).error
    ensures r.Pass? ==> file.content == Emitted(old(file.content), source, date, rows).value
    ensures r.Fail? ==> file.content == old(file.content)
  {
    if !file.present {
      return Fail(OutputMissing);
    }
    var header := HeaderLine(rows[0]);
    var ignoreHeaders := header == FirstLine(file.content);
    if ignoreHeaders {
      var ok := ConfirmNoDuplicates(file.content, rows);
      if ok.Fail? {
        return ok;
      }
    } else {
      file.content := header;
    }
    WriteRows(file, source, date, rows);
    r := Pass;
  }

  /** The loop that writes one data line per row after the header. */
  method WriteRows(file: OutputFile, source: string, date: string, rows: seq<string>)
    requires rows != []
    modifies file
    ensures file.present == old(file.present)
    ensures file.content == old(file.content) + Concat(DataLines(source, date, rows))
  {
    ghost var base := file.content;
    ghost var lines := DataLines(source, date, rows);
    var i := 1;
    while i < |rows|
      invariant 1 <= i <= |rows|
      invariant file.present == old(file.present)
      invariant file.content == base + Concat(lines[..i - 1])
    {
      var line := Provenance(source, date, rows[i]);
      DataLinesStep(base, lines, i - 1, line);
      file.content := file.content + line;
      i := i + 1;
    }
    assert lines[..i - 1] == lines;
  }

  /** Writing the data line at index `k` extends what has been written so
      far by that line. */
  lemma DataLinesStep(base: string, lines: seq<string>, k: int, line: string)
    requires 0 <= k < |lines| && lines[k] == line
    ensures base + Concat(lines[..k + 1]) == (base + Concat(lines[..k])) + line
  {
    assert lines[..k + 1] == lines[..k] + [line];
    ConcatAppend(lines[..k], line);
  }

  /** Extending a suffix of `path[..|path| - 1]` by the last character
      gives a suffix of `path`, preceded by the same character. */
  lemma SuffixExtend(path: string, r: string)
    requires |path| > 0 && |r| < |path| && r == path[..|path| - 1][|path| - 1 - |r|..]
    ensures r + [path[|path| - 1]] == path[|path| - |r| - 1..]
    ensures |r| + 1 < |path| ==> path[|path| - |r| - 2] == path[..|path| - 1][|path| - |r| - 2]
  {
  }

  /** `os.path.split(path)[-1]`: the text after the last slash, found by
      scanning back from the end as `posixpath.split` does with `rfind`. */
  function Basename(path: string): (r: string)
    ensures '/' !in r
    ensures |r| <= |path| && r == path[|path| - |r|..]
    ensures |r| == |path| || path[|path| - |r| - 1] == '/'
    decreases |path|
  {
    if path == [] || path[|path| - 1] == '/' then []
    else
      var r := Basename(path[..|path| - 1]);
      SuffixExtend(path, r);
      r + [path[|path| - 1]]
  }

  /** What `main` leaves in the output file: the grain must be known, the
      ISIN check (a database query, given here as its answer) must pass,
      the Fund Level date must be unique, the grain's sections must be
      found, and the output file must exist. */
  function MainResult(present: bool, content: string, inputPath: string, text: string,
                      grainName: string, isinFound: bool): Result<string, Error>
  {
    var g :- ConfirmGrainIsValid(grainName);
    if !isinFound then Err(IsinNotFound)
    else
      var lines := Split(text, '\n');
      var date :- ConfirmedDate(lines);
      var rows :- Transform(g, lines);
      if !present then Err(OutputMissing)
      else Emitted(content, Basename(inputPath), date, rows)
  }

  /** `main` after the argument parsing: `text` is the input file's
      contents. */
  method RunMain(file: OutputFile, inputPath: string, text: string, grainName: string, isinFound: bool)
    returns (r: Outcome<Error>)
    modifies file
    ensures file.present == old(file.present)
    ensures var m := MainResult(old(file.present), old(file.content), inputPath, text, grainName, isinFound);
      (r.Pass? <==> m.Ok?)
      && (r.Pass? ==> file.content == m.value)
      && (r.Fail? ==> file.content == old(file.content) && r.error == m.error)
  {
    var grain := ConfirmGrainIsValid(grainName);
    if grain.Err? {
      return Fail(grain.error);
    }
    if !isinFound {
      return Fail(IsinNotFound);
    }
    var lines := Split(text, '\n');
    var date := ConfirmValidDate(lines);
    if date.Err? {
      return Fail(date.error);
    }
    var rows := Dispatch(grain.value, lines);
    if rows.Err? {
      return Fail(rows.error);
    }
    r := Emit(file, Basename(inputPath), date.value, rows.value);
  }

  // ---------------------------------------------------------------------
  // What the output step promises

  /** A data line loses exactly its provenance columns in the duplicate
      check. */
  lemma StripProvenanceOf(source: string, date: string, row: string)
    requires '|' !in source && '|' !in date
    ensures StripProvenance(Provenance(source, date, row)) == row + "\n"
  {
    assert '|' !in Category;
    var rest := row + "\n";
    assert Provenance(source, date, row) == Category + ['|'] + (source + ['|'] + (date + ['|'] + rest));
    StripThreeFields(Category, source, date, rest);
  }

  /** Three leading fields without a pipe in them are exactly what the
      duplicate check drops. */
  lemma StripThreeFields(a: string, b: string, c: string, rest: string)
    requires '|' !in a && '|' !in b && '|' !in c
    ensures StripProvenance(a + ['|'] + (b + ['|'] + (c + ['|'] + rest))) == rest
  {
    var line := a + ['|'] + (b + ['|'] + (c + ['|'] + rest));
    var tail := Split(rest, '|');
    assert Split(line, '|') == [a, b, c] + tail by {
      SplitThreeCons(a, b, c, rest);
    }
    assert ([a, b, c] + tail)[3..] == tail;
    JoinSplit(rest, '|');
  }

  lemma SplitThreeCons(a: string, b: string, c: string, rest: string)
    requires '|' !in a && '|' !in b && '|' !in c
    ensures Split(a + ['|'] + (b + ['|'] + (c + ['|'] + rest)), '|') == [a, b, c] + Split(rest, '|')
  {
    var x3 := c + ['|'] + rest;
    var x2 := b + ['|'] + x3;
    SplitCons(a, x2, '|');
    SplitCons(b, x3, '|');
    SplitCons(c, rest, '|');
    ConsThree(a, b, c, Split(rest, '|'));
  }

  lemma ConsThree(a: string, b: string, c: string, tail: seq<string>)
    ensures [a] + ([b] + ([c] + tail)) == [a, b, c] + tail
  {
  }

  /** A first line that is a whole line stays the first line whatever
      follows it. */
  lemma FirstLineOf(l: string, rest: string)
    requires IsLine(l)
    ensures FirstLine(l + rest) == l
  {
    var t := l + rest;
    assert t[..|l| - 1] == l[..|l| - 1];
    IndexOfAt(t, '\n', |l| - 1);
    assert t[..|l|] == l;
  }

  predicate NoNewline(s: string) { '\n' !in s }

  /** The header line is a whole line when the section's header is. */
  lemma HeaderLineIsLine(header: string)
    requires NoNewline(header)
    ensures IsLine(HeaderLine(header))
  {
    assert '\n' !in InfoHeaders;
    LineOf(InfoHeaders + header);
  }

  /** Every data line is a whole line when no piece of it holds a newline. */
  lemma DataLinesAreLines(source: string, date: string, rows: seq<string>)
    requires NoNewline(source) && NoNewline(date)
    requires forall k :: 0 <= k < |rows| ==> NoNewline(rows[k])
    ensures forall k :: 0 <= k < |DataLines(source, date, rows)| ==> IsLine(DataLines(source, date, rows)[k])
  {
    forall k | 0 <= k < |DataLines(source, date, rows)|
      ensures IsLine(DataLines(source, date, rows)[k])
    {
      assert '\n' !in Category;
      LineOf(Category + "|" + source + "|" + date + "|" + rows[k + 1]);
    }
  }

  /** After a successful output step the file reads back as its old lines
      (append) or the header line (write), followed by one line per row
      after the header, provenance first. */
  lemma EmittedLines(content: string, source: string, date: string, rows: seq<string>)
    requires rows != [] && Emitted(content, source, date, rows).Ok?
    requires NoNewline(source) && NoNewline(date)
    requires forall k :: 0 <= k < |rows| ==> NoNewline(rows[k])
    requires content == [] || content[|content| - 1] == '\n'
    ensures var out := Emitted(content, source, date, rows).value;
      var header := HeaderLine(rows[0]);
      ReadLines(out) == (if header == FirstLine(content) then ReadLines(content) else [header])
        + DataLines(source, date, rows)
  {
    var header := HeaderLine(rows[0]);
    var data := DataLines(source, date, rows);
    DataLinesAreLines(source, date, rows);
    EmittedValue(content, source, date, rows);
    if header == FirstLine(content) {
      ReadLinesAfter(content, data);
    } else {
      HeaderLineIsLine(rows[0]);
      ReadLinesOne(header);
      ReadLinesAfter(header, data);
    }
  }

  /** The text the output step leaves, when it succeeds. */
  lemma EmittedValue(content: string, source: string, date: string, rows: seq<string>)
    requires rows != [] && Emitted(content, source, date, rows).Ok?
    ensures var header := HeaderLine(rows[0]);
      Emitted(content, source, date, rows).value
        == (if header == FirstLine(content) then content else header) + Concat(DataLines(source, date, rows))
  {
  }

  /** Running the output step twice with the same rows is refused the
      second time: the first run leaves the header in place, so the second
      appends, and the duplicate check finds the first data row. */
  lemma RerunIsRefused(content: string, source: string, date: string, rows: seq<string>)
    requires |rows| >= 2 && Emitted(content, source, date, rows).Ok?
    requires NoNewline(source) && NoNewline(date) && '|' !in source && '|' !in date
    requires forall k :: 0 <= k < |rows| ==> NoNewline(rows[k])
    requires content == [] || content[|content| - 1] == '\n'
    ensures Emitted(Emitted(content, source, date, rows).value, source, date, rows) == Err(DuplicateRows)
  {
    var out := Emitted(content, source, date, rows).value;
    EmittedStartsWithHeader(content, source, date, rows);
    EmittedOverlaps(content, source, date, rows);
    EmittedRefused(out, source, date, rows);
  }

  /** The first data row written is found again among the lines of the
      output. */
  lemma EmittedOverlaps(content: string, source: string, date: string, rows: seq<string>)
    requires |rows| >= 2 && Emitted(content, source, date, rows).Ok?
    requires NoNewline(source) && NoNewline(date) && '|' !in source && '|' !in date
    requires forall k :: 0 <= k < |rows| ==> NoNewline(rows[k])
    requires content == [] || content[|content| - 1] == '\n'
    ensures !NoOverlap(Emitted(content, source, date, rows).value, rows)
  {
    var out := Emitted(content, source, date, rows).value;
    var data := DataLines(source, date, rows);
    var header := HeaderLine(rows[0]);
    var before := if header == FirstLine(content) then ReadLines(content) else [header];
    EmittedLines(content, source, date, rows);
    var lines := ReadLines(out);
    assert lines == before + data;
    var j := |before|;
    assert lines[j] == data[0];
    StripProvenanceOf(source, date, rows[1]);
    Overlap(out, rows, j);
  }

  /** With the header line in place and a row already there, the output
      step refuses. */
  lemma EmittedRefused(content: string, source: string, date: string, rows: seq<string>)
    requires rows != [] && FirstLine(content) == HeaderLine(rows[0]) && !NoOverlap(content, rows)
    ensures Emitted(content, source, date, rows) == Err(DuplicateRows)
  {
  }

  /** What the output step leaves starts with the header line. */
  lemma EmittedStartsWithHeader(content: string, source: string, date: string, rows: seq<string>)
    requires rows != [] && Emitted(content, source, date, rows).Ok?
    requires NoNewline(rows[0])
    ensures FirstLine(Emitted(content, source, date, rows).value) == HeaderLine(rows[0])
  {
    var header := HeaderLine(rows[0]);
    var data := Concat(DataLines(source, date, rows));
    HeaderLineIsLine(rows[0]);
    if header == FirstLine(content) {
      FirstLineKept(content, header, data);
    } else {
      FirstLineOf(header, data);
    }
  }

  /** Text added after a whole first line leaves that line first. */
  lemma FirstLineKept(content: string, header: string, data: string)
    requires IsLine(header) && FirstLine(content) == header
    ensures FirstLine(content + data) == header
  {
    var tail := content[|header|..];
    assert content == header + tail;
    assert content + data == header + (tail + data);
    FirstLineOf(header, tail + data);
  }

  /** A line of the file that, provenance stripped, is the first row to be
      appended makes the duplicate check fail. */
  lemma Overlap(content: string, rows: seq<string>, j: int)
    requires |rows| >= 2 && 0 <= j < |ReadLines(content)|
    requires StripProvenance(ReadLines(content)[j]) == rows[1] + "\n"
    ensures !NoOverlap(content, rows)
  {
    assert Appended(rows)[0] == rows[1] + "\n";
  }
}
