/** The section-extraction and reshaping steps of the FDF parser
    (fdf-proj/sandbox/ishares_eqy_fdf_parse.py): cutting a section out of
    the export, transposing key/value rows, rewriting dates, and
    canonicalising a header row. */
module FdfSections {
  import opened PyStr
  import opened Results
  import opened FdfErrors
  import Dates

  // ---------------------------------------------------------------------
  // parse_data

  /** Every line stripped, as `parse_data` compares them. */
  function Stripped(lines: seq<string>): (r: seq<string>)
    ensures |r| == |lines|
  {
    seq(|lines|, k requires 0 <= k < |lines| => Strip(lines[k]))
  }

  /** The first index at or after `from` whose stripped line is `marker`. */
  function FindFrom(keys: seq<string>, from: nat, marker: string): (r: Option<nat>)
    requires from <= |keys|
    ensures r.Some? ==> from <= r.value < |keys| && keys[r.value] == marker
    ensures r.Some? ==> forall j :: from <= j < r.value ==> keys[j] != marker
    ensures r.None? ==> forall j :: from <= j < |keys| ==> keys[j] != marker
    decreases |keys| - from
  {
    if from == |keys| then None
    else if keys[from] == marker then Some(from)
    else FindFrom(keys, from + 1, marker)
  }

  /** What `parse_data(lines, start, end)` returns: the lines strictly
      between the first line that strips to `start` and the first line at or
      after it that strips to `end`. When both are the same line (possible
      only if `start == end`) the Python slice `[s + 1:s]` is empty. */
  function Section(lines: seq<string>, start: string, end: string): Result<seq<string>, Error> {
    match FindFrom(Stripped(lines), 0, start)
    case None => Err(StartNotFound(start))
    case Some(s) =>
      match FindFrom(Stripped(lines), s, end)
      case None => Err(EndNotFound(end))
      case Some(e) => Ok(if e == s then [] else lines[s + 1..e])
  }

  /** `parse_data`: two forward scans, each stopping at its first match. */
  method ParseData(lines: seq<string>, start: string, end: string)
    returns (r: Result<seq<string>, Error>)
    ensures r == Section(lines, start, end)
  {
    ghost var keys := Stripped(lines);
    var startIndex: Option<nat> := None;
    var index := 0;
    while index < |lines|
      invariant 0 <= index <= |lines|
      invariant forall j :: 0 <= j < index ==> keys[j] != start
    {
      assert keys[index] == Strip(lines[index]);
      if Strip(lines[index]) == start {
        startIndex := Some(index);
        break;
      }
      index := index + 1;
    }
    if startIndex.None? {
      return Err(StartNotFound(start));
    }
    var s := startIndex.value;
    assert FindFrom(keys, 0, start) == Some(s);

    var endIndex: Option<nat> := None;
    index := s;
    while index < |lines|
      invariant s <= index <= |lines|
      invariant forall j :: s <= j < index ==> keys[j] != end
    {
      assert keys[index] == Strip(lines[index]);
      if Strip(lines[index]) == end {
        endIndex := Some(index);
        break;
      }
      index := index + 1;
    }
    if endIndex.None? {
      return Err(EndNotFound(end));
    }
    var e := endIndex.value;
    assert FindFrom(keys, s, end) == Some(e);
    r := Ok(if e == s then [] else lines[s + 1..e]);
  }

  /** A section is a run of consecutive lines that follows a start-marker
      line, contains no end-marker line, and is followed by an end-marker
      line; and no start-marker line comes earlier. */
  lemma SectionBounds(lines: seq<string>, start: string, end: string)
    requires Section(lines, start, end).Ok?
    ensures var sec := Section(lines, start, end).value;
      var keys := Stripped(lines);
      exists s, e :: 0 <= s <= e < |lines|
        && keys[s] == start && keys[e] == end
        && (forall j :: 0 <= j < s ==> keys[j] != start)
        && (forall j :: s <= j < e ==> keys[j] != end)
        && sec == (if e == s then [] else lines[s + 1..e])
  {
    var keys := Stripped(lines);
    var s := FindFrom(keys, 0, start).value;
    var e := FindFrom(keys, s, end).value;
    assert Section(lines, start, end).value == (if e == s then [] else lines[s + 1..e]);
  }

  /** Every line of a section strips to something other than the end
      marker: the section stops at the first end marker (usually the first
      blank line). */
  lemma SectionStopsAtEnd(lines: seq<string>, start: string, end: string)
    requires Section(lines, start, end).Ok?
    ensures var sec := Section(lines, start, end).value;
      forall k :: 0 <= k < |sec| ==> Strip(sec[k]) != end
  {
    var keys := Stripped(lines);
    var s := FindFrom(keys, 0, start).value;
    var e := FindFrom(keys, s, end).value;
    var sec := Section(lines, start, end).value;
    forall k | 0 <= k < |sec|
      ensures Strip(sec[k]) != end
    {
      assert sec[k] == lines[s + 1 + k];
      assert keys[s + 1 + k] != end;
    }
  }

  // ---------------------------------------------------------------------
  // transpose

  /** The comma-split rows, `[row.split(',') for row in rows]`. */
  function SplitRows(rows: seq<string>): (r: seq<seq<string>>)
    ensures |r| == |rows|
  {
    seq(|rows|, k requires 0 <= k < |rows| => Split(rows[k], ','))
  }

  /** What the loop of `transpose` does to one row: a row of more than two
      fields loses its LAST field (`row.pop()`) and is followed by the row
      `[row[0] + '_date', row[2]]`; other rows stay as they are. */
  function ExpandRow(row: seq<string>): seq<seq<string>> {
    if |row| > 2 then [row[..|row| - 1], [row[0] + "_date", row[2]]] else [row]
  }

  /** The logical rows after the loop of `transpose`. */
  function Expand(rows: seq<seq<string>>): seq<seq<string>> {
    if rows == [] then []
    else Expand(rows[..|rows| - 1]) + ExpandRow(rows[|rows| - 1])
  }

  /** The length of the longest row (`zip_longest` makes that many
      columns). */
  function Width(rows: seq<seq<string>>): (w: nat)
    ensures forall k :: 0 <= k < |rows| ==> |rows[k]| <= w
    ensures rows != [] ==> exists k :: 0 <= k < |rows| && |rows[k]| == w
  {
    if rows == [] then 0
    else
      var w := Width(rows[..|rows| - 1]);
      var last := |rows[|rows| - 1]|;
      if last <= w then w else last
  }

  /** Field `i` of a logical row after `zip_longest`, `str` and
      `.replace('None', '')`: a missing field is `None`, printed `"None"`
      and then erased; a present field loses every `None` in it. */
  function Cell(row: seq<string>, i: nat): string {
    if i < |row| then ReplaceAll(row[i], "None", "") else ""
  }

  /** Output row `i`: field `i` of every logical row, pipe-joined. */
  function TransposedRow(rows: seq<seq<string>>, i: nat): string {
    Join(seq(|rows|, j requires 0 <= j < |rows| => Cell(rows[j], i)), '|')
  }

  /** What `transpose(rows)` returns. */
  function Transposed(rows: seq<string>): seq<string> {
    var logical := Expand(SplitRows(rows));
    seq(Width(logical), i requires 0 <= i => TransposedRow(logical, i))
  }

  /** `transpose`: the rows split on commas, the loop below, then the
      columns read off with `zip_longest`. */
  method Transpose(rows: seq<string>) returns (r: seq<string>)
    ensures r == Transposed(rows)
  {
    var split := SplitRows(rows);
    split := ExpandInPlace(split);
    r := seq(Width(split), j requires 0 <= j => TransposedRow(split, j));
  }

  /** The loop of `transpose`: it inserts into the list it is walking, so
      the inserted date row is visited next (and left alone, having two
      fields). */
  method ExpandInPlace(rows: seq<seq<string>>) returns (split: seq<seq<string>>)
    ensures split == Expand(rows)
  {
    split := rows;
    ghost var orig := split;
    ghost var k := 0;
    ghost var done: seq<seq<string>> := [];
    var i := 0;
    assert orig[..0] == [];
    while i < |split|
      invariant 0 <= k <= |orig| && done == Expand(orig[..k])
      invariant split == done + orig[k..]
      invariant i == |done| || (i + 1 == |done| && |split[i]| == 2)
      decreases |orig| - k, |split| - i
    {
      if |split[i]| > 2 {
        var row := split[i];
        var dateRow := [row[0] + "_date", row[2]];
        SplitLongRow(orig, k, done, split, i);
        split := split[..i] + [row[..|row| - 1], dateRow] + split[i + 1..];
        done := done + [row[..|row| - 1], dateRow];
        k := k + 1;
      } else if i == |done| {
        KeepShortRow(orig, k, done, split, i);
        done := done + [split[i]];
        k := k + 1;
      }
      i := i + 1;
    }
    assert k == |orig| by {
      assert |split| == |done| + |orig| - k;
    }
    assert orig[..k] == orig;
  }

  /** The row at the cursor, when the cursor has reached the unexpanded
      rows, is the next original row. */
  lemma ExpandNext(orig: seq<seq<string>>, k: nat, done: seq<seq<string>>, split: seq<seq<string>>, i: nat)
    requires k <= |orig| && done == Expand(orig[..k]) && split == done + orig[k..]
    requires i == |done| && i < |split|
    ensures k < |orig| && split[i] == orig[k]
    ensures Expand(orig[..k + 1]) == done + ExpandRow(orig[k])
    ensures split[..i] == done && split[i + 1..] == orig[k + 1..]
  {
    assert orig[..k + 1][..k] == orig[..k];
  }

  /** A step of the loop of `transpose` on a row of more than two fields:
      the row loses its last field and the date row follows it. */
  lemma SplitLongRow(orig: seq<seq<string>>, k: nat, done: seq<seq<string>>, split: seq<seq<string>>, i: nat)
    requires k <= |orig| && done == Expand(orig[..k]) && split == done + orig[k..]
    requires i == |done| && i < |split| && |split[i]| > 2
    ensures k < |orig|
    ensures var row := split[i];
      var dateRow := [row[0] + "_date", row[2]];
      var done' := done + [row[..|row| - 1], dateRow];
      var split' := split[..i] + [row[..|row| - 1], dateRow] + split[i + 1..];
      done' == Expand(orig[..k + 1]) && split' == done' + orig[k + 1..]
      && i + 2 == |done'| && |split'[i + 1]| == 2 && |split'| == |split| + 1
  {
    ExpandNext(orig, k, done, split, i);
    var row := split[i];
    var dateRow := [row[0] + "_date", row[2]];
    var split' := split[..i] + [row[..|row| - 1], dateRow] + split[i + 1..];
    assert split'[i + 1] == dateRow;
  }

  /** A step of the loop of `transpose` on a row of at most two fields:
      nothing changes but the expanded prefix. */
  lemma KeepShortRow(orig: seq<seq<string>>, k: nat, done: seq<seq<string>>, split: seq<seq<string>>, i: nat)
    requires k <= |orig| && done == Expand(orig[..k]) && split == done + orig[k..]
    requires i == |done| && i < |split| && |split[i]| <= 2
    ensures k < |orig|
    ensures done + [split[i]] == Expand(orig[..k + 1]) && split == (done + [split[i]]) + orig[k + 1..]
  {
    ExpandNext(orig, k, done, split, i);
    assert split == split[..i] + [split[i]] + split[i + 1..];
  }

  predicate NoPipeRows(rows: seq<seq<string>>) {
    forall k, f :: 0 <= k < |rows| && 0 <= f < |rows[k]| ==> '|' !in rows[k][f]
  }

  lemma SplitRowsNoPipe(rows: seq<string>)
    requires forall k :: 0 <= k < |rows| ==> '|' !in rows[k]
    ensures NoPipeRows(SplitRows(rows))
  {
    forall k | 0 <= k < |rows| {
      SplitKeeps(rows[k], ',', '|');
    }
  }

  /** The loop of `transpose` only drops fields and suffixes a name, so it
      brings in no pipe. */
  lemma {:induction false} ExpandNoPipe(rows: seq<seq<string>>)
    requires NoPipeRows(rows)
    ensures NoPipeRows(Expand(rows))
  {
    if rows != [] {
      ExpandNoPipe(rows[..|rows| - 1]);
      var last := rows[|rows| - 1];
      if |last| > 2 {
        assert '|' !in last[0] && '|' !in "_date";
        assert '|' !in last[0] + "_date";
      }
    }
  }

  /** Output row `i` of `transpose` holds field `i` of every logical row,
      in order, when no input row contains a pipe. */
  lemma TransposedFields(rows: seq<string>, i: nat)
    requires forall k :: 0 <= k < |rows| ==> '|' !in rows[k]
    requires i < |Transposed(rows)|
    ensures var logical := Expand(SplitRows(rows));
      Split(Transposed(rows)[i], '|') == seq(|logical|, j requires 0 <= j < |logical| => Cell(logical[j], i))
  {
    var logical := Expand(SplitRows(rows));
    var cells := seq(|logical|, j requires 0 <= j < |logical| => Cell(logical[j], i));
    SplitRowsNoPipe(rows);
    ExpandNoPipe(SplitRows(rows));
    forall j | 0 <= j < |logical|
      ensures '|' !in cells[j]
    {
      if i < |logical[j]| {
        ReplaceAllKeeps(logical[j][i], "None", "", '|');
      }
    }
    SplitJoin(cells, '|');
  }

  // ---------------------------------------------------------------------
  // format_date

  /** One field after the `try` of `format_date`: a `%b %d %Y` date is
      rewritten `%Y-%m-%d`; anything `strptime` rejects stays as it is. */
  function FormatField(f: string): string {
    match Dates.ParseDate(f)
    case Some(d) => Dates.Iso(d)
    case None => f
  }

  function FormatFields(fs: seq<string>): (r: seq<string>)
    ensures |r| == |fs|
  {
    seq(|fs|, k requires 0 <= k < |fs| => FormatField(fs[k]))
  }

  /** One row of `format_date`'s result: split on pipes, each field
      rewritten, joined back with pipes. */
  function FormatDateRow(row: string): string {
    Join(FormatFields(Split(row, '|')), '|')
  }

  /** What `format_date(rows)` returns. */
  function FormattedDates(rows: seq<string>): (r: seq<string>)
    ensures |r| == |rows|
  {
    seq(|rows|, k requires 0 <= k < |rows| => FormatDateRow(rows[k]))
  }

  /** How many of `fs` are dates (the `date_values` tally of one row). */
  function DateCount(fs: seq<string>): (n: nat)
    ensures n <= |fs|
  {
    if fs == [] then 0
    else DateCount(fs[..|fs| - 1]) + (if Dates.ParseDate(fs[|fs| - 1]).Some? then 1 else 0)
  }

  /** The `date_values` tally over whole rows. */
  function RowsDateCount(rows: seq<string>): nat {
    if rows == [] then 0
    else RowsDateCount(rows[..|rows| - 1]) + DateCount(Split(rows[|rows| - 1], '|'))
  }

  /** The number of pipe-separated fields in all rows. */
  function RowsFieldCount(rows: seq<string>): nat {
    if rows == [] then 0
    else RowsFieldCount(rows[..|rows| - 1]) + |Split(rows[|rows| - 1], '|')|
  }

  /** The inner loop of `format_date`: each field of one row rewritten in
      place, with the tallies for that row. */
  method FormatTargets(fields: seq<string>) returns (targets: seq<string>, dates: nat, nonDates: nat)
    ensures targets == FormatFields(fields)
    ensures dates == DateCount(fields) && dates + nonDates == |fields|
  {
    targets := fields;
    dates, nonDates := 0, 0;
    var i := 0;
    while i < |targets|
      invariant 0 <= i <= |fields|
      invariant targets == FormatFields(fields[..i]) + fields[i..]
      invariant dates == DateCount(fields[..i]) && dates + nonDates == i
      decreases |fields| - i
    {
      FormatFieldsStep(fields, i);
      var parsed := Dates.ParseDate(targets[i]);
      if parsed.Some? {
        targets := targets[i := Dates.Iso(parsed.value)];
        dates := dates + 1;
      } else {
        nonDates := nonDates + 1;
      }
      i := i + 1;
    }
    assert fields[..i] == fields;
  }

  /** One field of the inner loop of `format_date`. */
  lemma FormatFieldsStep(fields: seq<string>, i: nat)
    requires i < |fields|
    ensures (FormatFields(fields[..i]) + fields[i..])[i] == fields[i]
    ensures forall x :: ((FormatFields(fields[..i]) + fields[i..])[i := x]
      == FormatFields(fields[..i]) + [x] + fields[i + 1..])
    ensures FormatFields(fields[..i]) + [fields[i]] + fields[i + 1..] == FormatFields(fields[..i]) + fields[i..]
    ensures FormatFields(fields[..i + 1]) == FormatFields(fields[..i]) + [FormatField(fields[i])]
    ensures DateCount(fields[..i + 1])
      == DateCount(fields[..i]) + (if Dates.ParseDate(fields[i]).Some? then 1 else 0)
    ensures FormatField(fields[i])
      == if Dates.ParseDate(fields[i]).Some? then Dates.Iso(Dates.ParseDate(fields[i]).value) else fields[i]
  {
    assert fields[..i + 1][..i] == fields[..i];
    forall x
      ensures (FormatFields(fields[..i]) + fields[i..])[i := x]
        == FormatFields(fields[..i]) + [x] + fields[i + 1..]
    {
    }
    assert fields[i..] == [fields[i]] + fields[i + 1..];
  }

  /** `format_date`, with its two diagnostic tallies: `date_values` counts
      the fields rewritten, `non_date_values` the others. */
  method FormatDate(rows: seq<string>) returns (r: seq<string>, dateValues: nat, nonDateValues: nat)
    ensures r == FormattedDates(rows)
    ensures dateValues == RowsDateCount(rows)
    ensures dateValues + nonDateValues == RowsFieldCount(rows)
  {
    dateValues, nonDateValues := 0, 0;
    r := [];
    var n := 0;
    while n < |rows|
      invariant 0 <= n <= |rows|
      invariant r == FormattedDates(rows[..n])
      invariant dateValues == RowsDateCount(rows[..n])
      invariant dateValues + nonDateValues == RowsFieldCount(rows[..n])
    {
      var targets, dates, nonDates := FormatTargets(Split(rows[n], '|'));
      r := r + [Join(targets, '|')];
      dateValues, nonDateValues := dateValues + dates, nonDateValues + nonDates;
      assert rows[..n + 1][..n] == rows[..n];
      n := n + 1;
    }
    assert rows[..n] == rows;
  }

  /** `format_date` keeps every row's fields in place: field `k` of an
      output row is field `k` of the input row, rewritten when it is a
      date. */
  lemma FormatDateRowFields(row: string)
    ensures Split(FormatDateRow(row), '|') == FormatFields(Split(row, '|'))
  {
    var fs := Split(row, '|');
    forall k | 0 <= k < |fs|
      ensures '|' !in FormatFields(fs)[k]
    {
      match Dates.ParseDate(fs[k])
      case Some(d) =>
        var iso := Dates.Iso(d);
        forall j | 0 <= j < |iso|
          ensures iso[j] != '|'
        {
          if j < 4 { assert iso[..4][j] == iso[j]; }
          else if 5 <= j < 7 { assert iso[5..7][j - 5] == iso[j]; }
          else if 8 <= j { assert iso[8..][j - 8] == iso[j]; }
        }
      case None =>
    }
    SplitJoin(FormatFields(fs), '|');
  }

  /** A rewritten field is rewritten no further: an ISO date is not a
      `%b %d %Y` date. */
  lemma FormatFieldIdempotent(f: string)
    ensures FormatField(FormatField(f)) == FormatField(f)
  {
    match Dates.ParseDate(f)
    case Some(d) => Dates.ParseIsoNone(d);
    case None =>
  }

  /** Running `format_date` twice gives what running it once gives. */
  lemma FormatDateIdempotent(rows: seq<string>)
    ensures FormattedDates(FormattedDates(rows)) == FormattedDates(rows)
  {
    forall k | 0 <= k < |rows|
      ensures FormatDateRow(FormatDateRow(rows[k])) == FormatDateRow(rows[k])
    {
      var fs := Split(rows[k], '|');
      FormatDateRowFields(rows[k]);
      forall j | 0 <= j < |fs|
        ensures FormatField(FormatFields(fs)[j]) == FormatFields(fs)[j]
      {
        FormatFieldIdempotent(fs[j]);
      }
      assert FormatFields(FormatFields(fs)) == FormatFields(fs);
    }
  }

  // ---------------------------------------------------------------------
  // format_header (and the header clean-up of merge_holdings)

  /** One header field: `strip()`, `lower()`, then spaces to underscores. */
  function Canon(f: string): string {
    ReplaceChar(Lower(Strip(f)), ' ', '_')
  }

  function CanonFields(fs: seq<string>): (r: seq<string>)
    ensures |r| == |fs|
  {
    seq(|fs|, k requires 0 <= k < |fs| => Canon(fs[k]))
  }

  /** A field name as the clean-up leaves it: no upper-case letter, no
      space, no whitespace at either end. */
  predicate IsCanonical(f: string) {
    (forall k :: 0 <= k < |f| ==> !IsUpper(f[k]) && f[k] != ' ')
    && (f == [] || (!IsSpace(f[0]) && !IsSpace(f[|f| - 1])))
  }

  lemma CanonIsCanonical(f: string)
    ensures IsCanonical(Canon(f))
  {
    var t := Strip(f);
    StripIsTrim(f);
    var c := Canon(f);
    assert |c| == |t|;
    forall k | 0 <= k < |c|
      ensures !IsUpper(c[k]) && c[k] != ' '
    {
    }
    if c != [] {
      CanonSpaceAt(f, 0);
      CanonSpaceAt(f, |c| - 1);
    }
  }

  /** The clean-up turns no other character into whitespace. */
  lemma CanonSpaceAt(f: string, k: int)
    requires 0 <= k < |Canon(f)|
    ensures |Canon(f)| == |Strip(f)| && (IsSpace(Canon(f)[k]) ==> IsSpace(Strip(f)[k]))
  {
  }

  /** Cleaning up a cleaned-up name changes nothing. */
  lemma CanonIdempotent(f: string)
    ensures Canon(Canon(f)) == Canon(f)
  {
    var c := Canon(f);
    CanonIsCanonical(f);
    StripTrimmed(c);
    assert Lower(c) == c;
    assert ReplaceChar(c, ' ', '_') == c;
  }

  /** What `format_header(rows)` returns: the first row split on commas,
      each name cleaned up, joined with pipes; the other rows untouched. An
      empty list is an `IndexError`. */
  function FormatHeader(rows: seq<string>): Result<seq<string>, Error> {
    if rows == [] then Err(NoRows)
    else Ok([Join(CanonFields(Split(rows[0], ',')), '|')] + rows[1..])
  }

  /** `format_header` replaces the first row only, and that row's pipe
      fields are the cleaned-up comma fields of the old one. */
  lemma FormatHeaderSpec(rows: seq<string>)
    requires rows != [] && '|' !in rows[0]
    ensures FormatHeader(rows).Ok?
    ensures var r := FormatHeader(rows).value;
      |r| == |rows| && r[1..] == rows[1..]
      && Split(r[0], '|') == CanonFields(Split(rows[0], ','))
      && forall k :: 0 <= k < |Split(r[0], '|')| ==> IsCanonical(Split(r[0], '|')[k])
  {
    var fs := Split(rows[0], ',');
    SplitKeeps(rows[0], ',', '|');
    forall k | 0 <= k < |fs|
      ensures '|' !in CanonFields(fs)[k] && IsCanonical(CanonFields(fs)[k])
    {
      StripIsTrim(fs[k]);
      CanonIsCanonical(fs[k]);
    }
    SplitJoin(CanonFields(fs), '|');
  }
}
