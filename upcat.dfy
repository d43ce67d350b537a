/** upcat (upcat/upcat.py): a command line editor for pipe-delimited
    catalog tables. The first line of a catalog file is its header; every
    other line is a row whose first field is the row's key. A file is
    modelled as what `readlines()` gives back: its lines, each with its
    newline, the last one possibly without. */
module Upcat {
  import opened PyStr
  import opened Results

  /** The catalogs keyed by their first column. */
  const PrimaryKeyFiles: seq<string> :=
    ["Centers.catalog.test", "Environments.catalog.test", "Labs.catalog.test", "Products.catalog.test"]

  /** The catalogs keyed by several columns; every command leaves them
      alone. */
  const CompositeKeyFiles: seq<string> := ["Services.catalog.test"]

  datatype FileKind = Primary | Composite | Unknown

  function KindOf(name: string): FileKind {
    if name in PrimaryKeyFiles then Primary
    else if name in CompositeKeyFiles then Composite
    else Unknown
  }

  /** Every `exit(1)` of the tool, and the two uncaught exceptions. */
  datatype Error =
    | InvalidFile(name: string)
    | KeyExists(key: string)
    | KeyMissing(key: string)
    | ColumnsValuesMismatch
    | DuplicateColumns
    | InvalidColumn(col: string)
    | NotConfirmed
    | ShortRow
    | ValueUnset      // read: `f"{value:25}"` on a header still `None` raises TypeError

  /** A catalog file on disk: its name and its lines. */
  class CatalogFile {
    const name: string
    var lines: seq<string>

    constructor (name: string, lines: seq<string>)
      ensures this.name == name && this.lines == lines
    {
      this.name := name;
      this.lines := lines;
    }
  }

  /** The first `|`-field of a line: the row's key. On a line without a
      `|` that is the whole line, newline included. */
  function Key(line: string): string {
    Split(line, '|')[0]
  }

  /** `get_keys`: the key of every line after the header, in file order. */
  function GetKeys(lines: seq<string>): seq<string> {
    if lines == [] then [] else seq(|lines| - 1, k requires 0 <= k < |lines| - 1 => Key(lines[k + 1]))
  }

  /** The file ends with a newline (or is empty), so a write starts a new
      line. */
  predicate EndsWithNewline(lines: seq<string>) {
    lines == [] || (var last := lines[|lines| - 1]; |last| > 0 && last[|last| - 1] == '\n')
  }

  /** Writing `data` at the end of the file (mode 'a'): it continues the
      last line when that line has no newline. */
  function AppendText(lines: seq<string>, data: string): seq<string> {
    if EndsWithNewline(lines) then lines + [data]
    else lines[..|lines| - 1] + [lines[|lines| - 1] + data]
  }

  // ---------------------------------------------------------------------
  // add

  /** The number of fields of the header line (`readline()` of an empty
      file is `""`, which has one field). */
  function HeaderWidth(lines: seq<string>): (n: nat)
    ensures n >= 1
  {
    |Split(if lines == [] then "" else lines[0], '|')|
  }

  function Blanks(n: nat): seq<string> {
    seq(n, _ => "")
  }

  /** The row `add` writes: the key, then `width - 1` empty fields,
      pipe-joined and newline-terminated. */
  function NewRow(key: string, width: nat): string
    requires width >= 1
  {
    Join([key] + Blanks(width - 1), '|') + "\n"
  }

  /** What `add` leaves in the file. */
  function Added(name: string, lines: seq<string>, key: string): Result<seq<string>, Error> {
    match KindOf(name)
    case Unknown => Err(InvalidFile(name))
    case Composite => Ok(lines)
    case Primary =>
      if key in GetKeys(lines) then Err(KeyExists(key))
      else Ok(AppendText(lines, NewRow(key, HeaderWidth(lines))))
  }

  /** `add`. */
  method Add(file: CatalogFile, key: string) returns (r: Outcome<Error>)
    modifies file
    ensures var a := Added(file.name, old(file.lines), key);
      (r.Pass? <==> a.Ok?)
      && (r.Pass? ==> file.lines == a.value)
      && (r.Fail? ==> r.error == a.error && file.lines == old(file.lines))
  {
    match KindOf(file.name) {
      case Unknown =>
        return Fail(InvalidFile(file.name));
      case Composite =>
        return Pass;
      case Primary =>
        var keys := GetKeys(file.lines);
        if key in keys {
          return Fail(KeyExists(key));
        }
        var header := if file.lines == [] then "" else file.lines[0];
        var width := |Split(header, '|')|;
        var data := NewRow(key, width);
        file.lines := AppendText(file.lines, data);
        r := Pass;
    }
  }

  /** The new row is one whole line whose fields are the key and
      `width - 1` empty ones; with at least two columns its key is `key`. */
  lemma NewRowFields(key: string, width: nat)
    requires width >= 1 && '|' !in key && '\n' !in key
    ensures var row := NewRow(key, width);
      IsLine(row) && Split(row[..|row| - 1], '|') == [key] + Blanks(width - 1)
    ensures width >= 2 ==> Key(NewRow(key, width)) == key
  {
    var fields := [key] + Blanks(width - 1);
    var body := Join(fields, '|');
    assert forall k :: 0 <= k < |fields| ==> '|' !in fields[k] && '\n' !in fields[k];
    SplitJoin(fields, '|');
    JoinKeeps(fields, '|', '\n');
    LineOf(body);
    var row := body + "\n";
    assert row[..|row| - 1] == body;
    if width >= 2 {
      assert body == key + ['|'] + Join(fields[1..], '|');
      assert row == key + ['|'] + (Join(fields[1..], '|') + "\n");
      SplitCons(key, Join(fields[1..], '|') + "\n", '|');
    }
  }

  /** A character that is in no piece and is not the separator is not in
      the join. */
  lemma {:induction false} JoinKeeps(parts: seq<string>, sep: char, c: char)
    requires c != sep && forall k :: 0 <= k < |parts| ==> c !in parts[k]
    ensures c !in Join(parts, sep)
  {
    if |parts| > 1 {
      JoinKeeps(parts[1..], sep, c);
    }
  }

  /** On a newline-terminated primary file, `add` of a new key keeps every
      existing line and appends exactly the new row. */
  lemma AddAppendsRow(name: string, lines: seq<string>, key: string)
    requires KindOf(name) == Primary && key !in GetKeys(lines) && EndsWithNewline(lines)
    ensures Added(name, lines, key) == Ok(lines + [NewRow(key, HeaderWidth(lines))])
  {
  }

  /** After `add` on a file with a header of two or more columns, the keys
      are the old keys followed by the new one. */
  lemma AddKeys(name: string, lines: seq<string>, key: string)
    requires KindOf(name) == Primary && key !in GetKeys(lines) && EndsWithNewline(lines)
    requires lines != [] && HeaderWidth(lines) >= 2 && '|' !in key && '\n' !in key
    ensures Added(name, lines, key).Ok?
    ensures GetKeys(Added(name, lines, key).value) == GetKeys(lines) + [key]
  {
    var row := NewRow(key, HeaderWidth(lines));
    var after := lines + [row];
    NewRowFields(key, HeaderWidth(lines));
    assert GetKeys(after) == GetKeys(lines) + [key] by {
      assert |GetKeys(after)| == |GetKeys(lines)| + 1;
      forall k | 0 <= k < |GetKeys(after)|
        ensures GetKeys(after)[k] == (GetKeys(lines) + [key])[k]
      {
        if k < |lines| - 1 {
          assert after[k + 1] == lines[k + 1];
        }
      }
    }
  }

  // ---------------------------------------------------------------------
  // delete

  /** The lines whose key is not `key`, in order. */
  function Kept(lines: seq<string>, key: string): seq<string> {
    if lines == [] then []
    else
      var last := lines[|lines| - 1];
      Kept(lines[..|lines| - 1], key) + (if Key(last) != key then [last] else [])
  }

  /** What `delete` leaves in the file; `confirmed` is the answer to the
      "are you sure" prompt. */
  function Deleted(name: string, lines: seq<string>, key: string, confirmed: bool): Result<seq<string>, Error> {
    match KindOf(name)
    case Unknown => Err(InvalidFile(name))
    case Composite => Ok(lines)
    case Primary =>
      if key !in GetKeys(lines) then Err(KeyMissing(key))
      else if !confirmed then Err(NotConfirmed)
      else Ok(Kept(lines, key))
  }

  /** `delete`: the file is reopened for writing and every line whose key
      differs is written back. */
  method Delete(file: CatalogFile, key: string, confirmed: bool) returns (r: Outcome<Error>)
    modifies file
    ensures var d := Deleted(file.name, old(file.lines), key, confirmed);
      (r.Pass? <==> d.Ok?)
      && (r.Pass? ==> file.lines == d.value)
      && (r.Fail? ==> r.error == d.error && file.lines == old(file.lines))
  {
    match KindOf(file.name) {
      case Unknown =>
        return Fail(InvalidFile(file.name));
      case Composite =>
        return Pass;
      case Primary =>
        var keys := GetKeys(file.lines);
        if key !in keys {
          return Fail(KeyMissing(key));
        }
        var lines := file.lines;
        if !confirmed {
          return Fail(NotConfirmed);
        }
        file.lines := [];
        var i := 0;
        while i < |lines|
          invariant 0 <= i <= |lines|
          invariant file.lines == Kept(lines[..i], key)
        {
          assert lines[..i + 1][..i] == lines[..i];
          if Key(lines[i]) != key {
            file.lines := file.lines + [lines[i]];
          }
          i := i + 1;
        }
        assert lines[..i] == lines;
        r := Pass;
    }
  }

  /** Filtering a concatenation filters each part: the kept lines keep
      their order. */
  lemma {:induction false} KeptAppend(a: seq<string>, b: seq<string>, key: string)
    ensures Kept(a + b, key) == Kept(a, key) + Kept(b, key)
    decreases |b|
  {
    if b == [] {
      assert a + b == a;
    } else {
      var init := b[..|b| - 1];
      var last := b[|b| - 1];
      assert (a + b)[..|a + b| - 1] == a + init;
      KeptAppend(a, init, key);
    }
  }

  /** A line is kept exactly when it is a line of the file whose key
      differs. */
  lemma {:induction false} KeptMembers(lines: seq<string>, key: string)
    ensures forall x :: x in Kept(lines, key) <==> x in lines && Key(x) != key
  {
    if lines != [] {
      var init := lines[..|lines| - 1];
      KeptMembers(init, key);
      assert lines == init + [lines[|lines| - 1]];
    }
  }

  /** Lines none of which has the key are kept whole. */
  lemma {:induction false} KeptNone(lines: seq<string>, key: string)
    requires forall k :: 0 <= k < |lines| ==> Key(lines[k]) != key
    ensures Kept(lines, key) == lines
  {
    if lines != [] {
      KeptNone(lines[..|lines| - 1], key);
    }
  }

  /** After `delete` no line of the file has the deleted key. */
  lemma DeleteRemovesKey(name: string, lines: seq<string>, key: string)
    requires Deleted(name, lines, key, true).Ok? && KindOf(name) == Primary
    ensures var after := Deleted(name, lines, key, true).value;
      key !in GetKeys(after) && forall k :: 0 <= k < |after| ==> Key(after[k]) != key
  {
    var after := Kept(lines, key);
    KeptMembers(lines, key);
    assert forall k :: 0 <= k < |after| ==> after[k] in after;
  }

  /** A key that is neither the header's first field nor among the keys is
      the key of no line. */
  lemma KeyAbsent(lines: seq<string>, key: string)
    requires lines != [] && Key(lines[0]) != key && key !in GetKeys(lines)
    ensures forall k :: 0 <= k < |lines| ==> Key(lines[k]) != key
  {
    forall k | 1 <= k < |lines|
      ensures Key(lines[k]) != key
    {
      assert GetKeys(lines)[k - 1] == Key(lines[k]);
    }
  }

  /** Adding a new key to a newline-terminated file with two or more
      columns and then deleting it gives the file back. */
  lemma AddThenDelete(name: string, lines: seq<string>, key: string)
    requires KindOf(name) == Primary && key !in GetKeys(lines) && EndsWithNewline(lines)
    requires lines != [] && Key(lines[0]) != key
    requires HeaderWidth(lines) >= 2 && '|' !in key && '\n' !in key
    ensures Added(name, lines, key).Ok?
    ensures Deleted(name, Added(name, lines, key).value, key, true) == Ok(lines)
  {
    var row := NewRow(key, HeaderWidth(lines));
    AddAppendsRow(name, lines, key);
    AddKeys(name, lines, key);
    NewRowFields(key, HeaderWidth(lines));
    assert key in GetKeys(lines + [row]);
    KeyAbsent(lines, key);
    KeptNone(lines, key);
    KeptAppend(lines, [row], key);
    assert Kept([row], key) == [] by {
      assert [row][..0] == [];
    }
    assert Kept(lines + [row], key) == lines;
  }

  // ---------------------------------------------------------------------
  // update

  /** `header_dictionary`: each lowercased header field mapped to its
      position; a field that occurs twice keeps its last position. */
  function HeaderMap(fields: seq<string>): map<string, nat> {
    if fields == [] then map[]
    else HeaderMap(fields[..|fields| - 1])[Lower(fields[|fields| - 1]) := |fields| - 1]
  }

  /** The loop that fills `header_dictionary`. */
  method BuildHeaderMap(fields: seq<string>) returns (m: map<string, nat>)
    ensures m == HeaderMap(fields)
  {
    m := map[];
    var i := 0;
    while i < |fields|
      invariant 0 <= i <= |fields|
      invariant m == HeaderMap(fields[..i])
    {
      assert fields[..i + 1][..i] == fields[..i];
      m := m[Lower(fields[i]) := i];
      i := i + 1;
    }
    assert fields[..i] == fields;
  }

  /** The header map holds exactly the lowercased fields, each at the
      last position where it occurs. */
  lemma {:induction false} HeaderMapSpec(fields: seq<string>)
    ensures forall c :: c in HeaderMap(fields) <==> exists k :: 0 <= k < |fields| && Lower(fields[k]) == c
    ensures forall c :: c in HeaderMap(fields) ==>
      HeaderMap(fields)[c] < |fields| && Lower(fields[HeaderMap(fields)[c]]) == c
      && forall k :: HeaderMap(fields)[c] < k < |fields| ==> Lower(fields[k]) != c
  {
    if fields != [] {
      var init := fields[..|fields| - 1];
      HeaderMapSpec(init);
      assert forall k :: 0 <= k < |init| ==> init[k] == fields[k];
    }
  }

  /** Distinct columns of the header map sit at distinct positions. */
  lemma HeaderMapInjective(fields: seq<string>, a: string, b: string)
    requires a in HeaderMap(fields) && b in HeaderMap(fields) && a != b
    ensures HeaderMap(fields)[a] != HeaderMap(fields)[b]
  {
    HeaderMapSpec(fields);
  }

  /** `args.cols_vals[::2]`. */
  function Evens(s: seq<string>): (r: seq<string>)
    ensures |r| == (|s| + 1) / 2
  {
    seq((|s| + 1) / 2, k requires 0 <= k < (|s| + 1) / 2 => s[2 * k])
  }

  /** `args.cols_vals[1::2]`. */
  function Odds(s: seq<string>): (r: seq<string>)
    ensures |r| == |s| / 2
  {
    seq(|s| / 2, k requires 0 <= k < |s| / 2 => s[2 * k + 1])
  }

  function LowerAll(s: seq<string>): (r: seq<string>)
    ensures |r| == |s|
  {
    seq(|s|, k requires 0 <= k < |s| => Lower(s[k]))
  }

  function SetOf(s: seq<string>): set<string> {
    set x | x in s
  }

  predicate Distinct(s: seq<string>) {
    forall i, j :: 0 <= i < j < |s| ==> s[i] != s[j]
  }

  /** `len(cols) != len(set(cols))` is the test for a repeated column. */
  lemma {:induction false} DistinctCard(s: seq<string>)
    ensures |SetOf(s)| == |s| <==> Distinct(s)
    ensures |SetOf(s)| <= |s|
  {
    if s != [] {
      var init := s[..|s| - 1];
      var last := s[|s| - 1];
      DistinctCard(init);
      assert SetOf(s) == SetOf(init) + {last};
      if last in SetOf(init) {
        var i :| 0 <= i < |init| && init[i] == last;
        assert s[i] == s[|s| - 1];
      } else {
        assert Distinct(init) ==> Distinct(s) by {
          forall i, j | 0 <= i < j < |s| && Distinct(init)
            ensures s[i] != s[j]
          {
            if j < |s| - 1 {
              assert s[i] == init[i] && s[j] == init[j];
            } else {
              assert s[i] == init[i] && init[i] in SetOf(init);
            }
          }
        }
        assert Distinct(s) ==> Distinct(init) by {
          forall i, j | 0 <= i < j < |init| && Distinct(s)
            ensures init[i] != init[j]
          {
            assert s[i] == init[i] && s[j] == init[j];
          }
        }
      }
    }
  }

  /** The first column, in order, that is not a header. */
  function FirstInvalid(cols: seq<string>, hm: map<string, nat>): (r: Option<string>)
    ensures r.None? <==> forall k :: 0 <= k < |cols| ==> cols[k] in hm
    ensures r.Some? ==> r.value in cols && r.value !in hm
  {
    if cols == [] then None
    else if cols[0] !in hm then Some(cols[0])
    else FirstInvalid(cols[1..], hm)
  }

  /** The loop that checks each column against the header. */
  method CheckColumns(cols: seq<string>, hm: map<string, nat>) returns (r: Option<string>)
    ensures r == FirstInvalid(cols, hm)
  {
    var i := 0;
    while i < |cols|
      invariant 0 <= i <= |cols|
      invariant FirstInvalid(cols, hm) == FirstInvalid(cols[i..], hm)
    {
      assert cols[i..][1..] == cols[i + 1..];
      if cols[i] !in hm {
        return Some(cols[i]);
      }
      i := i + 1;
    }
    return None;
  }

  function Zip(cols: seq<string>, vals: seq<string>): (r: seq<(string, string)>)
    requires |cols| == |vals|
  {
    seq(|cols|, k requires 0 <= k < |cols| => (cols[k], vals[k]))
  }

  /** The checks on the column/value arguments, in the order `update`
      makes them; on success the column/value pairs, columns lowercased. */
  function Validated(colsVals: seq<string>, hm: map<string, nat>): (r: Result<seq<(string, string)>, Error>)
    ensures r == Err(ColumnsValuesMismatch) <==> |colsVals| % 2 == 1
    ensures r.Ok? ==> |r.value| == |colsVals| / 2
    ensures r.Ok? ==> forall k :: 0 <= k < |r.value| ==>
      (r.value[k].0 in hm && r.value[k].0 == Lower(colsVals[2 * k]) && r.value[k].1 == colsVals[2 * k + 1])
    ensures r.Ok? ==> forall i, j :: 0 <= i < j < |r.value| ==> r.value[i].0 != r.value[j].0
  {
    var cols := LowerAll(Evens(colsVals));
    var vals := Odds(colsVals);
    if |vals| != |cols| then Err(ColumnsValuesMismatch)
    else if |SetOf(cols)| != |cols| then Err(DuplicateColumns)
    else
      match FirstInvalid(cols, hm)
      case Some(c) => Err(InvalidColumn(c))
      case None =>
        DistinctCard(cols);
        Ok(Zip(cols, vals))
  }

  predicate AllIn(pairs: seq<(string, string)>, hm: map<string, nat>) {
    forall k :: 0 <= k < |pairs| ==> pairs[k].0 in hm
  }

  /** The `for col_val in cols_vals` loop on a matching row: each named
      column takes its value. Reading a position past the row's end raises
      `IndexError`. */
  function Assign(items: seq<string>, hm: map<string, nat>, pairs: seq<(string, string)>): (r: Result<seq<string>, Error>)
    requires AllIn(pairs, hm)
    ensures r.Ok? ==> |r.value| == |items|
    decreases |pairs|
  {
    if pairs == [] then Ok(items)
    else
      var idx := hm[pairs[0].0];
      if idx >= |items| then Err(ShortRow)
      else Assign(items[idx := pairs[0].1], hm, pairs[1..])
  }

  /** The assignment loop, run step by step. */
  method AssignPairs(items: seq<string>, hm: map<string, nat>, pairs: seq<(string, string)>)
    returns (r: Result<seq<string>, Error>)
    requires AllIn(pairs, hm)
    ensures r == Assign(items, hm, pairs)
  {
    var current := items;
    var i := 0;
    while i < |pairs|
      invariant 0 <= i <= |pairs|
      invariant Assign(items, hm, pairs) == Assign(current, hm, pairs[i..])
    {
      assert pairs[i..][1..] == pairs[i + 1..];
      var idx := hm[pairs[i].0];
      if idx >= |current| {
        return Err(ShortRow);
      }
      current := current[idx := pairs[i].1];
      i := i + 1;
    }
    return Ok(current);
  }

  /** The positions the pairs name are all distinct. */
  predicate Targets(pairs: seq<(string, string)>, hm: map<string, nat>)
    requires AllIn(pairs, hm)
  {
    forall i, j :: 0 <= i < j < |pairs| ==> hm[pairs[i].0] != hm[pairs[j].0]
  }

  /** The assignment succeeds exactly when every named position is inside
      the row; then each named position holds its value and every other
      field is kept. */
  lemma {:induction false} AssignSpec(items: seq<string>, hm: map<string, nat>, pairs: seq<(string, string)>)
    requires AllIn(pairs, hm) && Targets(pairs, hm)
    ensures Assign(items, hm, pairs).Ok? <==> forall k :: 0 <= k < |pairs| ==> hm[pairs[k].0] < |items|
    ensures Assign(items, hm, pairs).Ok? ==>
      var r := Assign(items, hm, pairs).value;
      (forall k :: 0 <= k < |pairs| ==> r[hm[pairs[k].0]] == pairs[k].1)
      && (forall j :: 0 <= j < |items| && (forall k :: 0 <= k < |pairs| ==> hm[pairs[k].0] != j) ==> r[j] == items[j])
    decreases |pairs|
  {
    if pairs != [] {
      var idx := hm[pairs[0].0];
      var rest := pairs[1..];
      assert forall k :: 0 <= k < |rest| ==> rest[k] == pairs[k + 1];
      if idx < |items| {
        var next := items[idx := pairs[0].1];
        AssignSpec(next, hm, rest);
      }
    }
  }

  /** `if "\n" not in items[-1]: items[-1] += "\n"`. */
  function Terminated(items: seq<string>): (r: seq<string>)
    requires items != []
    ensures |r| == |items|
  {
    var last := items[|items| - 1];
    if '\n' in last then items else items[..|items| - 1] + [last + "\n"]
  }

  /** What `update` writes for one data row; `pending` says whether the
      column/value pairs are still to be used (`zip` is a one-shot
      iterator, so only the first matching row gets them). */
  function RowOut(row: string, key: string, hm: map<string, nat>, pairs: seq<(string, string)>, pending: bool)
    : Result<string, Error>
    requires AllIn(pairs, hm)
  {
    var items := Split(row, '|');
    if items[0] != key then Ok(row)
    else
      var updated :- if pending then Assign(items, hm, pairs) else Ok(items);
      Ok(Join(Terminated(updated), '|'))
  }

  /** What `update` writes for the data rows, and how it ends. */
  function RewriteFrom(rows: seq<string>, key: string, hm: map<string, nat>, pairs: seq<(string, string)>,
                       pending: bool): (seq<string>, Outcome<Error>)
    requires AllIn(pairs, hm)
    decreases |rows|
  {
    if rows == [] then ([], Pass)
    else
      match RowOut(rows[0], key, hm, pairs, pending)
      case Err(e) => ([], Fail(e))
      case Ok(line) =>
        var rest := RewriteFrom(rows[1..], key, hm, pairs, pending && Key(rows[0]) != key);
        ([line] + rest.0, rest.1)
  }

  /** The data rows as `update` reads them: the first one lowercased
      (`infile.readline().lower()`), the others as they are. */
  function DataRows(lines: seq<string>): seq<string> {
    if |lines| < 2 then [] else [Lower(lines[1])] + lines[2..]
  }

  /** What `update` does: the `.out` file's lines (`None` when it is not
      opened) and how the command ends. The `.out` file is emptied before
      the key is checked and the header line is written before the
      arguments are, so those failures leave it empty or holding only the
      header. */
  function UpdateRun(name: string, lines: seq<string>, key: string, colsVals: seq<string>)
    : (Option<seq<string>>, Outcome<Error>)
  {
    match KindOf(name)
    case Unknown => (None, Fail(InvalidFile(name)))
    case Composite => (None, Pass)
    case Primary =>
      if key !in GetKeys(lines) then (Some([]), Fail(KeyMissing(key)))
      else
        var header := lines[0];
        var hm := HeaderMap(Split(RStrip(header), '|'));
        match Validated(colsVals, hm)
        case Err(e) => (Some([header]), Fail(e))
        case Ok(pairs) =>
          var rewritten := RewriteFrom(DataRows(lines), key, hm, pairs, true);
          (Some([header] + rewritten.0), rewritten.1)
  }

  /** The assignment loop can only fail on a row too short for a column. */
  lemma {:induction false} AssignFails(items: seq<string>, hm: map<string, nat>, pairs: seq<(string, string)>)
    requires AllIn(pairs, hm)
    ensures Assign(items, hm, pairs).Err? ==> Assign(items, hm, pairs).error == ShortRow
    decreases |pairs|
  {
    if pairs != [] && hm[pairs[0].0] < |items| {
      AssignFails(items[hm[pairs[0].0] := pairs[0].1], hm, pairs[1..]);
    }
  }

  /** The row loop can only fail on a row too short for a column. */
  lemma {:induction false} RewriteFails(rows: seq<string>, key: string, hm: map<string, nat>,
                                        pairs: seq<(string, string)>, pending: bool)
    requires AllIn(pairs, hm)
    ensures RewriteFrom(rows, key, hm, pairs, pending).1.Fail? ==> RewriteFrom(rows, key, hm, pairs, pending).1.error == ShortRow
    decreases |rows|
  {
    if rows != [] {
      AssignFails(Split(rows[0], '|'), hm, pairs);
      RewriteFails(rows[1..], key, hm, pairs, pending && Key(rows[0]) != key);
    }
  }

  /** On a primary-key file `update` always opens the `.out` file; its
      first line, once the key is known, is the header line unchanged; and
      every exit other than a short row happens before a data row is
      written. */
  lemma UpdateChecksFirst(name: string, lines: seq<string>, key: string, colsVals: seq<string>)
    requires KindOf(name) == Primary
    ensures var run := UpdateRun(name, lines, key, colsVals);
      run.0.Some?
      && (key in GetKeys(lines) ==> |run.0.value| >= 1 && run.0.value[0] == lines[0])
      && (run.1.Fail? && run.1.error != ShortRow ==> |run.0.value| <= 1)
  {
    if key in GetKeys(lines) {
      var hm := HeaderMap(Split(RStrip(lines[0]), '|'));
      if Validated(colsVals, hm).Ok? {
        RewriteFails(DataRows(lines), key, hm, Validated(colsVals, hm).value, true);
      }
    }
  }

  /** `update`: `out` is the file named `file.name + ".out"`. */
  method Update(file: CatalogFile, out: CatalogFile, key: string, colsVals: seq<string>) returns (r: Outcome<Error>)
    requires file != out
    modifies out
    ensures var run := UpdateRun(file.name, file.lines, key, colsVals);
      r == run.1 && out.lines == (if run.0.Some? then run.0.value else old(out.lines))
  {
    match KindOf(file.name) {
      case Unknown =>
        return Fail(InvalidFile(file.name));
      case Composite =>
        return Pass;
      case Primary =>
        out.lines := [];
        var keys := GetKeys(file.lines);
        if key !in keys {
          return Fail(KeyMissing(key));
        }
        var header := file.lines[0];
        out.lines := out.lines + [header];
        var hm := BuildHeaderMap(Split(RStrip(header), '|'));
        var vals := Odds(colsVals);
        var cols := LowerAll(Evens(colsVals));
        if |vals| != |cols| {
          return Fail(ColumnsValuesMismatch);
        } else if |SetOf(cols)| != |cols| {
          return Fail(DuplicateColumns);
        } else {
          var bad := CheckColumns(cols, hm);
          if bad.Some? {
            return Fail(InvalidColumn(bad.value));
          }
        }
        DistinctCard(cols);
        var pairs := Zip(cols, vals);
        r := RewriteRows(out, DataRows(file.lines), key, hm, pairs);
    }
  }

  /** The `while line:` loop of `update`, writing to `out`. */
  method RewriteRows(out: CatalogFile, rows: seq<string>, key: string, hm: map<string, nat>,
                     pairs: seq<(string, string)>) returns (r: Outcome<Error>)
    requires AllIn(pairs, hm)
    modifies out
    ensures var w := RewriteFrom(rows, key, hm, pairs, true);
      r == w.1 && out.lines == old(out.lines) + w.0
  {
    var pending := true;
    ghost var written: seq<string> := [];
    var i := 0;
    assert rows[0..] == rows;
    PrefixedNone(RewriteFrom(rows, key, hm, pairs, true));
    while i < |rows|
      invariant 0 <= i <= |rows|
      invariant out.lines == old(out.lines) + written
      invariant RewriteFrom(rows, key, hm, pairs, true)
        == Prefixed(written, RewriteFrom(rows[i..], key, hm, pairs, pending))
    {
      RewriteStep(rows, i, key, hm, pairs, pending);
      var line, stillPending := RewriteRow(rows[i], key, hm, pairs, pending);
      if line.Err? {
        return Fail(line.error);
      }
      PrefixedStep(written, line.value, RewriteFrom(rows[i + 1..], key, hm, pairs, stillPending));
      out.lines := out.lines + [line.value];
      written := written + [line.value];
      pending := stillPending;
      i := i + 1;
    }
    assert rows[i..] == [];
    return Pass;
  }

  /** The body of the `while line:` loop for one row. */
  method RewriteRow(row: string, key: string, hm: map<string, nat>, pairs: seq<(string, string)>, pending: bool)
    returns (line: Result<string, Error>, stillPending: bool)
    requires AllIn(pairs, hm)
    ensures line == RowOut(row, key, hm, pairs, pending)
    ensures stillPending == (pending && Key(row) != key)
  {
    var items := Split(row, '|');
    stillPending := pending;
    if key == items[0] {
      if pending {
        var result := AssignPairs(items, hm, pairs);
        if result.Err? {
          return Err(result.error), false;
        }
        items := result.value;
        stillPending := false;
      }
      line := Ok(Join(Terminated(items), '|'));
    } else {
      line := Ok(row);
    }
  }

  /** Output already written in front of what remains to be written. */
  function Prefixed(written: seq<string>, rest: (seq<string>, Outcome<Error>)): (seq<string>, Outcome<Error>) {
    (written + rest.0, rest.1)
  }

  lemma PrefixedNone(rest: (seq<string>, Outcome<Error>))
    ensures Prefixed([], rest) == rest
  {
    assert [] + rest.0 == rest.0;
  }

  lemma PrefixedStep(written: seq<string>, line: string, rest: (seq<string>, Outcome<Error>))
    ensures Prefixed(written, ([line] + rest.0, rest.1)) == Prefixed(written + [line], rest)
  {
    assert written + ([line] + rest.0) == (written + [line]) + rest.0;
  }

  /** One row of the rewrite. */
  lemma RewriteStep(rows: seq<string>, i: int, key: string, hm: map<string, nat>,
                    pairs: seq<(string, string)>, pending: bool)
    requires 0 <= i < |rows| && AllIn(pairs, hm)
    ensures var here := RewriteFrom(rows[i..], key, hm, pairs, pending);
      match RowOut(rows[i], key, hm, pairs, pending)
      case Err(e) => here == ([], Fail(e))
      case Ok(line) =>
        var rest := RewriteFrom(rows[i + 1..], key, hm, pairs, pending && Key(rows[i]) != key);
        here == ([line] + rest.0, rest.1)
  {
    assert rows[i..][0] == rows[i];
    assert rows[i..][1..] == rows[i + 1..];
  }

  /** No row before position `k` has the key. */
  predicate NoMatchBefore(rows: seq<string>, k: int, key: string) {
    forall j :: 0 <= j < k && j < |rows| ==> Key(rows[j]) != key
  }

  /** When the rewrite completes, it writes one line per row, and each row
      is rewritten with the pairs still pending exactly when no earlier row
      had the key: only the first matching row is updated. */
  lemma {:induction false} RewriteRowsSpec(rows: seq<string>, key: string, hm: map<string, nat>,
                                           pairs: seq<(string, string)>, pending: bool)
    requires AllIn(pairs, hm) && RewriteFrom(rows, key, hm, pairs, pending).1 == Pass
    ensures var out := RewriteFrom(rows, key, hm, pairs, pending).0;
      |out| == |rows|
      && forall k :: 0 <= k < |rows| ==>
        RowOut(rows[k], key, hm, pairs, pending && NoMatchBefore(rows, k, key)) == Ok(out[k])
    decreases |rows|
  {
    if rows != [] {
      var next := pending && Key(rows[0]) != key;
      var tail := rows[1..];
      RewriteRowsSpec(tail, key, hm, pairs, next);
      var out := RewriteFrom(rows, key, hm, pairs, pending).0;
      forall k | 1 <= k < |rows|
        ensures RowOut(rows[k], key, hm, pairs, pending && NoMatchBefore(rows, k, key)) == Ok(out[k])
      {
        assert tail[k - 1] == rows[k];
        assert (pending && NoMatchBefore(rows, k, key)) == (next && NoMatchBefore(tail, k - 1, key)) by {
          if NoMatchBefore(tail, k - 1, key) {
            forall j | 1 <= j < k ensures Key(rows[j]) != key {
              assert tail[j - 1] == rows[j];
            }
          }
          if NoMatchBefore(rows, k, key) {
            forall j | 0 <= j < k - 1 ensures Key(tail[j]) != key {
              assert tail[j] == rows[j + 1];
            }
          }
        }
      }
    }
  }

  /** A matching row after the first is written back as it was, provided
      it ends with a newline. */
  lemma LaterMatchCopied(row: string, key: string, hm: map<string, nat>, pairs: seq<(string, string)>)
    requires AllIn(pairs, hm) && Key(row) == key
    requires |row| > 0 && row[|row| - 1] == '\n'
    ensures RowOut(row, key, hm, pairs, false) == Ok(row)
  {
    var items := Split(row, '|');
    JoinSplit(row, '|');
    JoinedLast(items, '|', row);
  }

  /** A join ends with its last part, or with the separator when that
      part is empty and not the only one. */
  lemma {:induction false} JoinEnd(parts: seq<string>, sep: char)
    requires |parts| >= 1
    ensures var j := Join(parts, sep); var last := parts[|parts| - 1];
      |last| > 0 ==> |j| > 0 && j[|j| - 1] == last[|last| - 1]
    ensures var j := Join(parts, sep);
      parts[|parts| - 1] == [] && |parts| > 1 ==> |j| > 0 && j[|j| - 1] == sep
    decreases |parts|
  {
    if |parts| > 1 {
      var j := Join(parts[1..], sep);
      assert Join(parts, sep) == parts[0] + [sep] + j;
      assert parts[1..][|parts[1..]| - 1] == parts[|parts| - 1];
      JoinEnd(parts[1..], sep);
    }
  }

  /** When the joined string does not end with the separator, its last
      part is non-empty and ends where the string ends. */
  lemma JoinedLast(parts: seq<string>, sep: char, s: string)
    requires |parts| >= 1 && Join(parts, sep) == s && |s| > 0 && s[|s| - 1] != sep
    ensures var last := parts[|parts| - 1]; |last| > 0 && last[|last| - 1] == s[|s| - 1]
  {
    JoinEnd(parts, sep);
    if |parts| == 1 {
      assert Join(parts, sep) == parts[0];
    }
  }

  /** The first matching row, read back, has the fields the assignment
      produced (with the newline put back on the last one), provided no
      value holds a `|`. */
  lemma FirstMatchFields(row: string, key: string, hm: map<string, nat>, pairs: seq<(string, string)>)
    requires AllIn(pairs, hm) && Key(row) == key
    requires RowOut(row, key, hm, pairs, true).Ok?
    requires forall k :: 0 <= k < |pairs| ==> '|' !in pairs[k].1
    ensures Assign(Split(row, '|'), hm, pairs).Ok?
    ensures Split(RowOut(row, key, hm, pairs, true).value, '|')
      == Terminated(Assign(Split(row, '|'), hm, pairs).value)
  {
    var items := Split(row, '|');
    AssignKeeps(items, hm, pairs);
    var t := Terminated(Assign(items, hm, pairs).value);
    assert forall k :: 0 <= k < |t| ==> '|' !in t[k];
    SplitJoin(t, '|');
  }

  /** The assignment puts no `|` into a row whose fields and values have
      none. */
  lemma {:induction false} AssignKeeps(items: seq<string>, hm: map<string, nat>, pairs: seq<(string, string)>)
    requires AllIn(pairs, hm)
    requires forall k :: 0 <= k < |items| ==> '|' !in items[k]
    requires forall k :: 0 <= k < |pairs| ==> '|' !in pairs[k].1
    ensures Assign(items, hm, pairs).Ok? ==>
      forall k :: 0 <= k < |items| ==> '|' !in Assign(items, hm, pairs).value[k]
    decreases |pairs|
  {
    if pairs != [] && hm[pairs[0].0] < |items| {
      var rest := pairs[1..];
      assert forall k :: 0 <= k < |rest| ==> rest[k] == pairs[k + 1];
      AssignKeeps(items[hm[pairs[0].0] := pairs[0].1], hm, rest);
    }
  }

  // ---------------------------------------------------------------------
  // read, with a key

  /** `dict.fromkeys(headers)`: every header, with no value yet. */
  function InitRecord(headers: seq<string>): map<string, Option<string>> {
    map h | h in headers :: None
  }

  /** The `for i, header in enumerate(headers)` loop over the first `n`
      headers: each takes the row's value at its position, so a header
      that occurs twice ends with the later value. */
  function Overlay(m: map<string, Option<string>>, headers: seq<string>, items: seq<string>, n: nat)
    : map<string, Option<string>>
    requires n <= |headers| <= |items|
  {
    if n == 0 then m else Overlay(m, headers, items, n - 1)[headers[n - 1] := Some(items[n - 1])]
  }

  /** One line of the `while line:` loop: a line whose key matches and
      whose field count is the header's overwrites the record; any other
      line leaves it as it is. */
  function Absorb(m: map<string, Option<string>>, headers: seq<string>, line: string, key: string)
    : map<string, Option<string>>
  {
    var items := Split(RStrip(line), '|');
    if items[0] == key && |items| == |headers| then Overlay(m, headers, items, |headers|) else m
  }

  /** The record after the loop has seen `lines` (the header line
      included, as the loop starts with it). */
  function RecordOf(headers: seq<string>, lines: seq<string>, key: string): map<string, Option<string>> {
    if lines == [] then InitRecord(headers)
    else Absorb(RecordOf(headers, lines[..|lines| - 1], key), headers, lines[|lines| - 1], key)
  }

  /** Every header of the record has been given a value. */
  predicate AllSet(m: map<string, Option<string>>) {
    forall h :: h in m ==> m[h].Some?
  }

  /** `read` with a key: the header to value map, the exit for a key the
      file does not hold, or the `TypeError` that printing a header still
      `None` raises. */
  function Record(lines: seq<string>, key: string): Result<map<string, Option<string>>, Error> {
    if key !in GetKeys(lines) then Err(KeyMissing(key))
    else
      var m := RecordOf(Split(RStrip(lines[0]), '|'), lines, key);
      if AllSet(m) then Ok(m) else Err(ValueUnset)
  }

  /** The loop of `read` that fills the map. */
  method ReadRecord(lines: seq<string>, key: string) returns (r: Result<map<string, Option<string>>, Error>)
    ensures r == Record(lines, key)
  {
    var keys := GetKeys(lines);
    if key !in keys {
      return Err(KeyMissing(key));
    }
    var headers := Split(RStrip(lines[0]), '|');
    var record := InitRecord(headers);
    var i := 0;
    while i < |lines|
      invariant 0 <= i <= |lines|
      invariant record == RecordOf(headers, lines[..i], key)
    {
      assert lines[..i + 1][..i] == lines[..i];
      var items := Split(RStrip(lines[i]), '|');
      if key == items[0] {
        if |items| == |headers| {
          record := OverlayRow(record, headers, items);
        }
      }
      i := i + 1;
    }
    assert lines[..i] == lines;
    if exists h :: h in record && record[h].None? {
      return Err(ValueUnset);
    }
    return Ok(record);
  }

  /** The inner `for` loop of `read`. */
  method OverlayRow(m: map<string, Option<string>>, headers: seq<string>, items: seq<string>)
    returns (r: map<string, Option<string>>)
    requires |headers| <= |items|
    ensures r == Overlay(m, headers, items, |headers|)
  {
    r := m;
    for i := 0 to |headers|
      invariant r == Overlay(m, headers, items, i)
    {
      r := r[headers[i] := Some(items[i])];
    }
  }

  /** Overlaying the first `n` headers sets each of them to the value at
      its last position among them and leaves every other entry alone. */
  lemma {:induction false} OverlayValues(m: map<string, Option<string>>, headers: seq<string>, items: seq<string>, n: nat)
    requires n <= |headers| <= |items|
    ensures var r := Overlay(m, headers, items, n);
      r.Keys == m.Keys + (set k | 0 <= k < n :: headers[k])
      && (forall h :: h in m && h !in headers[..n] ==> r[h] == m[h])
      && (forall k :: 0 <= k < n && (forall j :: k < j < n ==> headers[j] != headers[k]) ==> r[headers[k]] == Some(items[k]))
  {
    OverlayKeys(m, headers, items, n);
    OverlayKeeps(m, headers, items, n);
    OverlaySets(m, headers, items, n);
  }

  lemma {:induction false} OverlayKeys(m: map<string, Option<string>>, headers: seq<string>, items: seq<string>, n: nat)
    requires n <= |headers| <= |items|
    ensures Overlay(m, headers, items, n).Keys == m.Keys + (set k | 0 <= k < n :: headers[k])
  {
    if n > 0 {
      OverlayKeys(m, headers, items, n - 1);
      assert (set k | 0 <= k < n :: headers[k]) == (set k | 0 <= k < n - 1 :: headers[k]) + {headers[n - 1]};
    }
  }

  lemma {:induction false} OverlayKeeps(m: map<string, Option<string>>, headers: seq<string>, items: seq<string>, n: nat)
    requires n <= |headers| <= |items|
    ensures var r := Overlay(m, headers, items, n);
      forall h :: h in m && h !in headers[..n] ==> h in r && r[h] == m[h]
  {
    if n > 0 {
      OverlayKeeps(m, headers, items, n - 1);
      assert headers[..n] == headers[..n - 1] + [headers[n - 1]];
    }
  }

  lemma {:induction false} OverlaySets(m: map<string, Option<string>>, headers: seq<string>, items: seq<string>, n: nat)
    requires n <= |headers| <= |items|
    ensures var r := Overlay(m, headers, items, n);
      forall k :: 0 <= k < n && (forall j :: k < j < n ==> headers[j] != headers[k]) ==> headers[k] in r && r[headers[k]] == Some(items[k])
  {
    if n > 0 {
      OverlaySets(m, headers, items, n - 1);
    }
  }

  /** The record's keys are always exactly the header fields. */
  lemma {:induction false} RecordKeys(headers: seq<string>, lines: seq<string>, key: string)
    ensures RecordOf(headers, lines, key).Keys == set k | 0 <= k < |headers| :: headers[k]
  {
    var all := set k | 0 <= k < |headers| :: headers[k];
    assert InitRecord(headers).Keys == all by {
      forall h | h in all ensures h in InitRecord(headers) {
        var k :| 0 <= k < |headers| && headers[k] == h;
      }
    }
    if lines != [] {
      var prev := RecordOf(headers, lines[..|lines| - 1], key);
      RecordKeys(headers, lines[..|lines| - 1], key);
      var items := Split(RStrip(lines[|lines| - 1]), '|');
      if items[0] == key && |items| == |headers| {
        OverlayValues(prev, headers, items, |headers|);
      }
    }
  }

  /** A line with the key and as many fields as the header sets every
      header to its value in that line (the last one, for a header that
      occurs twice); any other line leaves the record unchanged. */
  lemma RecordAppend(headers: seq<string>, lines: seq<string>, line: string, key: string)
    ensures var items := Split(RStrip(line), '|');
      var after := RecordOf(headers, lines + [line], key);
      if items[0] == key && |items| == |headers| then
        forall k :: 0 <= k < |headers| && (forall j :: k < j < |headers| ==> headers[j] != headers[k])
          ==> headers[k] in after && after[headers[k]] == Some(items[k])
      else after == RecordOf(headers, lines, key)
  {
    var all := lines + [line];
    assert all[..|all| - 1] == lines;
    var items := Split(RStrip(line), '|');
    if items[0] == key && |items| == |headers| {
      OverlayValues(RecordOf(headers, lines, key), headers, items, |headers|);
    }
  }

  /** A line the `read` loop copies into the record: its key matches and
      it has as many fields as the header. */
  predicate Matches(headers: seq<string>, line: string, key: string) {
    var items := Split(RStrip(line), '|');
    items[0] == key && |items| == |headers|
  }

  /** Without a matching line the record keeps the `dict.fromkeys` map. */
  lemma {:induction false} RecordNoMatch(headers: seq<string>, lines: seq<string>, key: string)
    requires forall i :: 0 <= i < |lines| ==> !Matches(headers, lines[i], key)
    ensures RecordOf(headers, lines, key) == InitRecord(headers)
  {
    if lines != [] {
      var prev := lines[..|lines| - 1];
      assert forall i :: 0 <= i < |prev| ==> prev[i] == lines[i];
      RecordNoMatch(headers, prev, key);
    }
  }

  /** Overlaying the first `n` headers leaves unset only entries that
      were unset before and are not among them. */
  lemma {:induction false} OverlaySome(m: map<string, Option<string>>, headers: seq<string>, items: seq<string>, n: nat)
    requires n <= |headers| <= |items|
    ensures var r := Overlay(m, headers, items, n);
      forall h :: h in r ==> r[h].Some? || (h in m && m[h].None? && h !in headers[..n])
  {
    if n > 0 {
      OverlaySome(m, headers, items, n - 1);
      assert headers[..n] == headers[..n - 1] + [headers[n - 1]];
    }
  }

  /** Once a matching line has been seen, every header has a value. */
  lemma {:induction false} RecordAllSet(headers: seq<string>, lines: seq<string>, key: string, i: nat)
    requires i < |lines| && Matches(headers, lines[i], key)
    ensures AllSet(RecordOf(headers, lines, key))
  {
    var prev := lines[..|lines| - 1];
    var last := lines[|lines| - 1];
    var m := RecordOf(headers, prev, key);
    if Matches(headers, last, key) {
      var items := Split(RStrip(last), '|');
      var r := Overlay(m, headers, items, |headers|);
      assert RecordOf(headers, lines, key) == r;
      RecordKeys(headers, prev, key);
      OverlaySome(m, headers, items, |headers|);
      assert headers[..|headers|] == headers;
      forall h | h in r ensures r[h].Some? {
        if h in m && m[h].None? {
          var k :| 0 <= k < |headers| && headers[k] == h;
          assert h in headers[..|headers|];
        }
      }
    } else {
      assert RecordOf(headers, lines, key) == m;
      assert i < |prev| && prev[i] == lines[i];
      RecordAllSet(headers, prev, key, i);
    }
  }

  /** `read` with a key the file holds prints the record exactly when some
      line with that key has the header's field count; otherwise a header
      is still `None` when printed, and the program crashes. */
  lemma RecordSetExactly(lines: seq<string>, key: string)
    requires key in GetKeys(lines)
    ensures var headers := Split(RStrip(lines[0]), '|');
      (Record(lines, key).Ok? <==> exists i :: 0 <= i < |lines| && Matches(headers, lines[i], key))
      && (Record(lines, key).Err? ==> Record(lines, key) == Err(ValueUnset))
  {
    var headers := Split(RStrip(lines[0]), '|');
    if exists i :: 0 <= i < |lines| && Matches(headers, lines[i], key) {
      var i :| 0 <= i < |lines| && Matches(headers, lines[i], key);
      RecordAllSet(headers, lines, key, i);
    } else {
      RecordNoMatch(headers, lines, key);
      assert headers[0] in InitRecord(headers);
    }
  }
}
