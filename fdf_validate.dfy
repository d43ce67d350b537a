/** The checks the FDF parser runs before writing
    (fdf-proj/sandbox/ishares_eqy_fdf_parse.py): one position date for the
    whole file, and no row appended twice. */
module FdfValidate {
  import opened PyStr
  import opened Results
  import opened FdfErrors
  import opened FdfSections
  import Dates

  /** The section whose rows carry the position date. */
  const FundLevel: string := "Fund Level"

  // ---------------------------------------------------------------------
  // confirm_valid_date

  /** The value a Fund Level row adds to `date_set`: the third field of a
      row with exactly two commas, when that field is not empty. */
  function DateField(row: string): (r: Option<string>)
    ensures r.Some? ==> r.value != "" && ',' !in r.value
  {
    SplitLength(row, ',');
    if CountChar(row, ',') == 2 && Split(row, ',')[2] != "" then Some(Split(row, ',')[2]) else None
  }

  /** The date fields of `rows`, in order. */
  function Candidates(rows: seq<string>): seq<string> {
    if rows == [] then []
    else
      Candidates(rows[..|rows| - 1])
      + match DateField(rows[|rows| - 1]) case Some(f) => [f] case None => []
  }

  /** `date_set`. */
  function DateSet(rows: seq<string>): set<string> {
    set x | x in Candidates(rows)
  }

  /** The candidates are exactly the date fields of the rows. */
  lemma {:induction false} CandidatesSpec(rows: seq<string>)
    ensures forall x :: x in Candidates(rows) <==> exists k :: 0 <= k < |rows| && DateField(rows[k]) == Some(x)
  {
    if rows != [] {
      var init := rows[..|rows| - 1];
      CandidatesSpec(init);
      forall x | (exists k :: 0 <= k < |rows| && DateField(rows[k]) == Some(x))
        ensures x in Candidates(rows)
      {
        var k :| 0 <= k < |rows| && DateField(rows[k]) == Some(x);
        if k < |init| {
          assert init[k] == rows[k];
        }
      }
      forall x | x in Candidates(rows)
        ensures exists k :: 0 <= k < |rows| && DateField(rows[k]) == Some(x)
      {
        if x in Candidates(init) {
          var k :| 0 <= k < |init| && DateField(init[k]) == Some(x);
          assert rows[k] == init[k];
        } else {
          assert DateField(rows[|rows| - 1]) == Some(x);
        }
      }
    }
  }

  /** All the candidates are one value. */
  predicate AllSame(cands: seq<string>) {
    cands != [] && forall k :: 0 <= k < |cands| ==> cands[k] == cands[0]
  }

  /** One row more adds its date field, if any, to the set. */
  lemma DateSetStep(rows: seq<string>, i: int)
    requires 0 <= i < |rows|
    ensures DateSet(rows[..i + 1])
      == DateSet(rows[..i]) + (match DateField(rows[i]) case Some(f) => {f} case None => {})
  {
    assert rows[..i + 1][..i] == rows[..i];
  }

  /** A set of candidates has exactly one member when the candidates are
      all one value, and that member is the first candidate. */
  lemma SingleDate(rows: seq<string>)
    ensures |DateSet(rows)| == 1 <==> AllSame(Candidates(rows))
    ensures AllSame(Candidates(rows)) ==> DateSet(rows) == {Candidates(rows)[0]}
  {
    var cands := Candidates(rows);
    if AllSame(cands) {
      assert DateSet(rows) == {cands[0]};
    } else if cands == [] {
      assert DateSet(rows) == {};
    } else {
      var k :| 0 <= k < |cands| && cands[k] != cands[0];
      assert {cands[0], cands[k]} <= DateSet(rows);
      assert |{cands[0], cands[k]}| == 2;
      SubsetCard({cands[0], cands[k]}, DateSet(rows));
    }
  }

  lemma SubsetCard(a: set<string>, b: set<string>)
    requires a <= b
    ensures |a| <= |b|
  {
    assert b == a + (b - a);
  }

  /** What `confirm_valid_date(lines)` returns: the one Fund Level date in
      ISO form. No date, or two different ones, is an error; so is a
      single value `strptime` rejects. */
  function ConfirmedDate(lines: seq<string>): Result<string, Error> {
    var section :- Section(lines, FundLevel, "");
    var cands := Candidates(section);
    if AllSame(cands) then
      match Dates.ParseDate(cands[0])
      case Some(d) => Ok(Dates.Iso(d))
      case None => Err(NotADate(cands[0]))
    else Err(DatesDoNotMatch)
  }

  /** `confirm_valid_date`: the Fund Level section is scanned once,
      collecting the date fields into a set. */
  method ConfirmValidDate(lines: seq<string>) returns (r: Result<string, Error>)
    ensures r == ConfirmedDate(lines)
  {
    var parsed := ParseData(lines, FundLevel, "");
    if parsed.Err? {
      return Err(parsed.error);
    }
    var writeData := parsed.value;
    var dateSet: set<string> := {};
    var i := 0;
    while i < |writeData|
      invariant 0 <= i <= |writeData|
      invariant dateSet == DateSet(writeData[..i])
    {
      var field := DateField(writeData[i]);
      DateSetStep(writeData, i);
      if field.Some? {
        dateSet := dateSet + {field.value};
      }
      i := i + 1;
    }
    assert writeData[..i] == writeData;
    SingleDate(writeData);
    if |dateSet| == 1 {
      var date :| date in dateSet;
      var d := Dates.ParseDate(date);
      if d.Some? {
        r := Ok(Dates.Iso(d.value));
      } else {
        r := Err(NotADate(date));
      }
    } else {
      r := Err(DatesDoNotMatch);
    }
  }

  /** A confirmed date is the ISO form of a valid date, and every Fund
      Level row that carries a date carries that same date. */
  lemma ConfirmedDateAgrees(lines: seq<string>)
    requires ConfirmedDate(lines).Ok?
    ensures var section := Section(lines, FundLevel, "").value;
      exists d :: Dates.Valid(d) && ConfirmedDate(lines).value == Dates.Iso(d)
        && forall k :: 0 <= k < |section| && DateField(section[k]).Some? ==>
             Dates.ParseDate(DateField(section[k]).value) == Some(d)
  {
    var section := Section(lines, FundLevel, "").value;
    var cands := Candidates(section);
    var d := Dates.ParseDate(cands[0]).value;
    CandidatesSpec(section);
    forall k | 0 <= k < |section| && DateField(section[k]).Some?
      ensures Dates.ParseDate(DateField(section[k]).value) == Some(d)
    {
      var f := DateField(section[k]).value;
      assert f in cands;
    }
  }

  /** Two Fund Level rows with different dates stop the run. */
  lemma DifferentDatesFail(lines: seq<string>, i: nat, j: nat)
    requires Section(lines, FundLevel, "").Ok?
    requires var section := Section(lines, FundLevel, "").value;
      i < |section| && j < |section| && DateField(section[i]).Some? && DateField(section[j]).Some?
      && DateField(section[i]) != DateField(section[j])
    ensures ConfirmedDate(lines) == Err(DatesDoNotMatch)
  {
    var section := Section(lines, FundLevel, "").value;
    CandidatesSpec(section);
    var cands := Candidates(section);
    assert DateField(section[i]).value in cands && DateField(section[j]).value in cands;
  }

  /** A Fund Level section without a date stops the run. */
  lemma NoDateFails(lines: seq<string>)
    requires Section(lines, FundLevel, "").Ok?
    requires var section := Section(lines, FundLevel, "").value;
      forall k :: 0 <= k < |section| ==> DateField(section[k]).None?
    ensures ConfirmedDate(lines) == Err(DatesDoNotMatch)
  {
    var section := Section(lines, FundLevel, "").value;
    CandidatesSpec(section);
    if Candidates(section) != [] {
      assert Candidates(section)[0] in Candidates(section);
    }
  }

  // ---------------------------------------------------------------------
  // confirm_no_duplicates

  /** An output line without its first three (provenance) fields:
      `'|'.join(line.split('|')[3:])`; the newline stays on. */
  function StripProvenance(line: string): string {
    var fields := Split(line, '|');
    Join(if |fields| >= 3 then fields[3..] else [], '|')
  }

  /** The rows about to be appended, as they will be written: every row
      after the header, newline-terminated. */
  function Appended(rows: seq<string>): (r: seq<string>)
    ensures |r| == if rows == [] then 0 else |rows| - 1
  {
    if rows == [] then [] else seq(|rows| - 1, k requires 0 <= k < |rows| - 1 => rows[k + 1] + "\n")
  }

  /** No line of the file, provenance stripped, equals a row to append. */
  predicate NoOverlap(content: string, rows: seq<string>) {
    var existing := ReadLines(content);
    forall j, k :: 0 <= j < |existing| && 0 <= k < |Appended(rows)| ==>
      StripProvenance(existing[j]) != Appended(rows)[k]
  }

  /** `confirm_no_duplicates(rows, outfile)` on a file holding `content`:
      the existing lines, provenance stripped, are intersected as a set with
      the rows to append. */
  method ConfirmNoDuplicates(content: string, rows: seq<string>) returns (r: Outcome<Error>)
    ensures r.Pass? <==> NoOverlap(content, rows)
    ensures r.Fail? ==> r.error == DuplicateRows
  {
    var existingRaw := ReadLines(content);
    var existing: seq<string> := [];
    var i := 0;
    while i < |existingRaw|
      invariant 0 <= i <= |existingRaw|
      invariant existing == seq(i, j requires 0 <= j < i => StripProvenance(existingRaw[j]))
    {
      existing := existing + [StripProvenance(existingRaw[i])];
      i := i + 1;
    }
    var dataList := Appended(rows);
    var intersection := (set x | x in existing) * (set x | x in dataList);
    forall j, k | 0 <= j < |existingRaw| && 0 <= k < |dataList|
      ensures StripProvenance(existingRaw[j]) == dataList[k] ==> dataList[k] in intersection
    {
      assert existing[j] == StripProvenance(existingRaw[j]);
      assert existing[j] in (set x | x in existing);
      assert dataList[k] in (set x | x in dataList);
    }
    if intersection == {} {
      r := Pass;
    } else {
      var x :| x in intersection;
      r := Fail(DuplicateRows);
    }
  }
}
