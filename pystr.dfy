/** Python `str` operations used by the scripts, over ASCII text.
    A Python `str` is a `string` (a `seq<char>`); only the behaviour on
    ASCII characters is modelled. */
module PyStr {

  /** `str.isspace()` for an ASCII character: space, `\t \n \v \f \r`
      and the four separator characters 0x1C-0x1F. */
  predicate IsSpace(c: char) {
    c == ' ' || 9 <= c as int <= 13 || 28 <= c as int <= 31
  }

  predicate IsUpper(c: char) { 'A' <= c <= 'Z' }

  predicate IsDigit(c: char) { '0' <= c <= '9' }

  /** Position of the first occurrence of `c` in `s`. */
  function IndexOf(s: string, c: char): (i: nat)
    requires c in s
    ensures i < |s| && s[i] == c && c !in s[..i]
  {
    if s[0] == c then 0 else 1 + IndexOf(s[1..], c)
  }

  /** The first `c` is found at the first position holding `c`. */
  lemma IndexOfAt(s: string, c: char, i: nat)
    requires i < |s| && s[i] == c && c !in s[..i]
    ensures IndexOf(s, c) == i
  {
  }

  /** `str.count(c)` for a one-character argument. */
  function CountChar(s: string, c: char): nat {
    if s == [] then 0 else (if s[0] == c then 1 else 0) + CountChar(s[1..], c)
  }

  /** `sep.join(parts)` for a one-character separator. */
  function Join(parts: seq<string>, sep: char): string {
    if |parts| == 0 then ""
    else if |parts| == 1 then parts[0]
    else parts[0] + [sep] + Join(parts[1..], sep)
  }

  /** `s.split(sep)` for a one-character separator: empty fields are kept,
      so `"".split(",") == [""]` and `"a,".split(",") == ["a", ""]`. */
  function Split(s: string, sep: char): (r: seq<string>)
    ensures |r| >= 1
    ensures forall k :: 0 <= k < |r| ==> sep !in r[k]
    decreases |s|
  {
    if sep !in s then [s]
    else
      var i := IndexOf(s, sep);
      [s[..i]] + Split(s[i + 1..], sep)
  }

  /** Joining the pieces of a split with the same separator gives the
      string back. */
  lemma {:induction false} JoinSplit(s: string, sep: char)
    ensures Join(Split(s, sep), sep) == s
    decreases |s|
  {
    if sep in s {
      var i := IndexOf(s, sep);
      var rest := Split(s[i + 1..], sep);
      JoinSplit(s[i + 1..], sep);
      assert Split(s, sep) == [s[..i]] + rest;
      assert s == s[..i] + [sep] + s[i + 1..];
    }
  }

  /** Splitting a join of separator-free pieces gives the pieces back. */
  lemma {:induction false} SplitJoin(parts: seq<string>, sep: char)
    requires |parts| >= 1
    requires forall k :: 0 <= k < |parts| ==> sep !in parts[k]
    ensures Split(Join(parts, sep), sep) == parts
  {
    if |parts| > 1 {
      var s := Join(parts, sep);
      var n := |parts[0]|;
      assert sep !in parts[0];
      SplitJoin(parts[1..], sep);
      assert s == parts[0] + [sep] + Join(parts[1..], sep);
      assert s[n] == sep;
      assert s[..n] == parts[0];
      IndexOfAt(s, sep, n);
      assert s[n + 1..] == Join(parts[1..], sep);
      assert parts == [parts[0]] + parts[1..];
    }
  }

  /** A split has one more field than the string has separators. */
  lemma {:induction false} SplitLength(s: string, sep: char)
    ensures |Split(s, sep)| == CountChar(s, sep) + 1
    decreases |s|
  {
    if sep in s {
      var i := IndexOf(s, sep);
      CountAppend(s[..i], s[i..], sep);
      assert s == s[..i] + s[i..];
      CountNone(s[..i], sep);
      assert s[i..][1..] == s[i + 1..];
      SplitLength(s[i + 1..], sep);
    } else {
      CountNone(s, sep);
    }
  }

  lemma {:induction false} CountNone(s: string, c: char)
    requires c !in s
    ensures CountChar(s, c) == 0
  {
    if s != [] {
      assert c !in s[1..];
      CountNone(s[1..], c);
    }
  }

  lemma {:induction false} CountAppend(a: string, b: string, c: char)
    ensures CountChar(a + b, c) == CountChar(a, c) + CountChar(b, c)
  {
    if a != [] {
      assert (a + b)[1..] == a[1..] + b;
      CountAppend(a[1..], b, c);
    } else {
      assert a + b == b;
    }
  }

  /** `str.lstrip()`: drops the leading whitespace and nothing else. */
  function LStrip(s: string): (r: string)
    ensures |r| <= |s|
  {
    if |s| > 0 && IsSpace(s[0]) then LStrip(s[1..]) else s
  }

  /** `lstrip` keeps a suffix, drops only whitespace, and stops at the
      first character that is not whitespace. */
  lemma {:induction false} LStripSpec(s: string)
    ensures var r := LStrip(s);
      r == s[|s| - |r|..] && (forall k :: 0 <= k < |s| - |r| ==> IsSpace(s[k]))
      && (r == [] || !IsSpace(r[0]))
    decreases |s|
  {
    if |s| > 0 && IsSpace(s[0]) {
      LStripSpec(s[1..]);
    }
  }

  /** `str.rstrip()`: drops the trailing whitespace and nothing else. */
  function RStrip(s: string): (r: string)
    ensures |r| <= |s|
  {
    if |s| > 0 && IsSpace(s[|s| - 1]) then RStrip(s[..|s| - 1]) else s
  }

  /** `rstrip` keeps a prefix, drops only whitespace, and stops at the
      last character that is not whitespace. */
  lemma {:induction false} RStripSpec(s: string)
    ensures var r := RStrip(s);
      r == s[..|r|] && (forall k :: |r| <= k < |s| ==> IsSpace(s[k]))
      && (r == [] || !IsSpace(r[|r| - 1]))
    decreases |s|
  {
    if |s| > 0 && IsSpace(s[|s| - 1]) {
      RStripSpec(s[..|s| - 1]);
    }
  }

  /** `str.strip()`. */
  function Strip(s: string): string {
    RStrip(LStrip(s))
  }

  /** The result of `strip()` is a middle slice of the argument with no
      whitespace at either end, and everything cut off is whitespace. */
  lemma StripIsTrim(s: string)
    ensures var r := Strip(s);
      exists i, j :: 0 <= i <= j <= |s| && r == s[i..j]
        && (forall k :: 0 <= k < i ==> IsSpace(s[k]))
        && (forall k :: j <= k < |s| ==> IsSpace(s[k]))
        && (r == [] || (!IsSpace(r[0]) && !IsSpace(r[|r| - 1])))
  {
    var l := LStrip(s);
    var r := RStrip(l);
    LStripSpec(s);
    RStripSpec(l);
    var i := |s| - |l|;
    var j := i + |r|;
    assert r == s[i..j];
    forall k | j <= k < |s|
      ensures IsSpace(s[k])
    {
      assert s[k] == l[k - i];
    }
  }

  /** Stripping twice is stripping once. */
  lemma StripIdempotent(s: string)
    ensures Strip(Strip(s)) == Strip(s)
  {
    StripIsTrim(s);
    StripTrimmed(Strip(s));
  }

  /** Text with no whitespace at either end is its own `strip()`. */
  lemma StripTrimmed(s: string)
    requires s == [] || (!IsSpace(s[0]) && !IsSpace(s[|s| - 1]))
    ensures Strip(s) == s
  {
    assert LStrip(s) == s;
    RStripSpec(s);
  }

  function LowerChar(c: char): char {
    if IsUpper(c) then (c as int + 32) as char else c
  }

  /** `str.lower()` over ASCII. */
  function Lower(s: string): (r: string)
    ensures |r| == |s|
  {
    seq(|s|, k requires 0 <= k < |s| => LowerChar(s[k]))
  }

  /** `str.replace(old, new)` for one-character arguments. */
  function ReplaceChar(s: string, from: char, to: char): (r: string)
    ensures |r| == |s|
  {
    seq(|s|, k requires 0 <= k < |s| => if s[k] == from then to else s[k])
  }

  predicate StartsWith(s: string, p: string) {
    |p| <= |s| && s[..|p|] == p
  }

  /** `pat` occurs in `s` starting at position `k`. */
  predicate OccursAt(s: string, pat: string, k: int) {
    0 <= k <= |s| - |pat| && s[k..k + |pat|] == pat
  }

  /** `pat` occurs somewhere in `s`. */
  predicate Contains(s: string, pat: string) {
    exists k | 0 <= k <= |s| - |pat| :: OccursAt(s, pat, k)
  }

  /** `str.replace(pat, rep)`: every non-overlapping occurrence of `pat`,
      scanning left to right, is replaced by `rep`. */
  function ReplaceAll(s: string, pat: string, rep: string): string
    requires |pat| > 0
  {
    if |s| < |pat| then s
    else if StartsWith(s, pat) then rep + ReplaceAll(s[|pat|..], pat, rep)
    else [s[0]] + ReplaceAll(s[1..], pat, rep)
  }

  /** A string without the pattern is left alone by `replace`. */
  lemma {:induction false} ReplaceAllAbsent(s: string, pat: string, rep: string)
    requires |pat| > 0 && !Contains(s, pat)
    ensures ReplaceAll(s, pat, rep) == s
  {
    if |s| >= |pat| {
      assert !OccursAt(s, pat, 0);
      assert s[0..|pat|] == s[..|pat|];
      assert !StartsWith(s, pat);
      assert !Contains(s[1..], pat) by {
        forall k | 0 <= k <= |s[1..]| - |pat|
          ensures !OccursAt(s[1..], pat, k)
        {
          assert s[1..][k..k + |pat|] == s[k + 1..k + 1 + |pat|];
          assert !OccursAt(s, pat, k + 1);
        }
      }
      ReplaceAllAbsent(s[1..], pat, rep);
      assert [s[0]] + s[1..] == s;
    }
  }

  /** A string lacking some character of the pattern is left alone by
      `replace`. */
  lemma ReplaceAllMissing(s: string, pat: string, rep: string, c: char)
    requires c in pat && c !in s
    ensures ReplaceAll(s, pat, rep) == s
  {
    assert !Contains(s, pat) by {
      forall k | 0 <= k <= |s| - |pat|
        ensures !OccursAt(s, pat, k)
      {
        var i :| 0 <= i < |pat| && pat[i] == c;
        assert s[k..k + |pat|][i] == s[k + i];
      }
    }
    ReplaceAllAbsent(s, pat, rep);
  }

  /** Splitting peels off the text before the first separator. */
  lemma SplitCons(a: string, rest: string, sep: char)
    requires sep !in a
    ensures Split(a + [sep] + rest, sep) == [a] + Split(rest, sep)
  {
    var s := a + [sep] + rest;
    IndexOfAt(s, sep, |a|);
    assert s[..|a|] == a && s[|a| + 1..] == rest;
  }

  /** Splitting three separator-free pieces joined by the separator. */
  lemma SplitThree(a: string, b: string, c: string, sep: char)
    requires sep !in a && sep !in b && sep !in c
    ensures Split(a + [sep] + b + [sep] + c, sep) == [a, b, c]
  {
    SplitCons(b, c, sep);
    assert a + [sep] + b + [sep] + c == a + [sep] + (b + [sep] + c);
    SplitCons(a, b + [sep] + c, sep);
  }

  /** Splitting two separator-free pieces joined by the separator. */
  lemma SplitTwo(a: string, b: string, sep: char)
    requires sep !in a && sep !in b
    ensures Split(a + [sep] + b, sep) == [a, b]
  {
    SplitCons(a, b, sep);
    assert Split(b, sep) == [b];
  }

  lemma JoinTwo(a: string, b: string, sep: char)
    ensures Join([a, b], sep) == a + [sep] + b
  {
    assert [a, b][1..] == [b];
  }

  lemma JoinThree(a: string, b: string, c: string, sep: char)
    ensures Join([a, b, c], sep) == a + [sep] + b + [sep] + c
  {
    assert [a, b, c][1..] == [b, c] && [b, c][1..] == [c];
    assert Join([b, c], sep) == b + [sep] + c;
    assert a + [sep] + (b + [sep] + c) == a + [sep] + b + [sep] + c;
  }

  lemma JoinFour(a: string, b: string, c: string, d: string, sep: char)
    ensures Join([a, b, c, d], sep) == a + [sep] + b + [sep] + c + [sep] + d
  {
    assert [a, b, c, d][1..] == [b, c, d];
    JoinThree(b, c, d, sep);
    assert a + [sep] + (b + [sep] + c + [sep] + d) == a + [sep] + b + [sep] + c + [sep] + d;
  }

  /** A character absent from a string is absent from each of its fields. */
  lemma {:induction false} SplitKeeps(s: string, sep: char, c: char)
    requires c !in s
    ensures forall k :: 0 <= k < |Split(s, sep)| ==> c !in Split(s, sep)[k]
    decreases |s|
  {
    if sep in s {
      var i := IndexOf(s, sep);
      SplitKeeps(s[i + 1..], sep, c);
      assert c !in s[..i];
    }
  }

  /** `replace` introduces no character that neither the string nor the
      replacement holds. */
  lemma {:induction false} ReplaceAllKeeps(s: string, pat: string, rep: string, c: char)
    requires |pat| > 0 && c !in s && c !in rep
    ensures c !in ReplaceAll(s, pat, rep)
  {
    if |s| >= |pat| {
      if StartsWith(s, pat) {
        ReplaceAllKeeps(s[|pat|..], pat, rep, c);
      } else {
        ReplaceAllKeeps(s[1..], pat, rep, c);
      }
    }
  }

  /** Concatenation of a list of strings (`''.join(lines)`). */
  function Concat(ss: seq<string>): string {
    if ss == [] then "" else ss[0] + Concat(ss[1..])
  }

  /** A line as `readlines()` yields it when it is not the last one: a
      non-empty string whose only newline is its last character. */
  predicate IsLine(l: string) {
    |l| > 0 && l[|l| - 1] == '\n' && '\n' !in l[..|l| - 1]
  }

  /** Text without a newline, closed by one, is a whole line. */
  lemma LineOf(body: string)
    requires '\n' !in body
    ensures IsLine(body + "\n")
  {
    assert (body + "\n")[..|body|] == body;
  }

  /** `f.readlines()` on a file whose contents are `text`: the text cut
      after every newline, the newline kept; a last piece without a newline
      is a line too. */
  function ReadLines(text: string): seq<string>
    decreases |text|
  {
    if text == [] then []
    else if '\n' !in text then [text]
    else
      var i := IndexOf(text, '\n');
      [text[..i + 1]] + ReadLines(text[i + 1..])
  }

  /** The lines read back concatenate to the text; each is non-empty and
      all but the last are whole lines. */
  lemma {:induction false} ReadLinesSound(text: string)
    ensures var r := ReadLines(text);
      Concat(r) == text
      && (forall k :: 0 <= k < |r| ==> |r[k]| > 0)
      && (forall k :: 0 <= k < |r| - 1 ==> IsLine(r[k]))
    decreases |text|
  {
    if '\n' in text {
      var i := IndexOf(text, '\n');
      assert text[..i + 1][..i] == text[..i];
      assert text == text[..i + 1] + text[i + 1..];
      ReadLinesSound(text[i + 1..]);
    }
  }

  /** Reading back text made of whole lines gives those lines. */
  lemma {:induction false} ReadLinesConcat(lines: seq<string>)
    requires forall k :: 0 <= k < |lines| ==> IsLine(lines[k])
    ensures ReadLines(Concat(lines)) == lines
  {
    if lines != [] {
      var l := lines[0];
      ReadLinesAppend(l, Concat(lines[1..]));
      ReadLinesOne(l);
      ReadLinesConcat(lines[1..]);
    }
  }

  /** A whole line reads back as itself. */
  lemma ReadLinesOne(l: string)
    requires IsLine(l)
    ensures ReadLines(l) == [l]
  {
    IndexOfAt(l, '\n', |l| - 1);
    assert l[..|l|] == l;
  }

  lemma ReadLinesUnfold(text: string)
    requires '\n' in text
    ensures var i := IndexOf(text, '\n');
      ReadLines(text) == [text[..i + 1]] + ReadLines(text[i + 1..])
  {
  }

  /** Text after the first line does not change where that line ends. */
  lemma ReadLinesPrefix(text: string, l: string)
    requires '\n' in text
    ensures var i := IndexOf(text, '\n');
      ReadLines(text + l) == [text[..i + 1]] + ReadLines(text[i + 1..] + l)
  {
    var i := IndexOf(text, '\n');
    var t := text + l;
    assert t[i] == '\n' && t[..i] == text[..i];
    IndexOfAt(t, '\n', i);
    assert t[..i + 1] == text[..i + 1];
    assert t[i + 1..] == text[i + 1..] + l;
    ReadLinesUnfold(t);
  }

  /** The inductive step of `ReadLinesAppend`: the first line of the text
      is the first line of the text followed by more. */
  lemma ReadLinesAppendStep(text: string, rest: string)
    requires '\n' in text
    requires var tail := text[IndexOf(text, '\n') + 1..];
      ReadLines(tail + rest) == ReadLines(tail) + ReadLines(rest)
    ensures ReadLines(text + rest) == ReadLines(text) + ReadLines(rest)
  {
    var i := IndexOf(text, '\n');
    var head, tail := text[..i + 1], text[i + 1..];
    calc {
      ReadLines(text + rest);
      { ReadLinesPrefix(text, rest); }
      [head] + ReadLines(tail + rest);
      [head] + (ReadLines(tail) + ReadLines(rest));
      ([head] + ReadLines(tail)) + ReadLines(rest);
      { ReadLinesUnfold(text); }
      ReadLines(text) + ReadLines(rest);
    }
  }

  /** Text read after newline-terminated text adds its own lines to
      those of the text before it. */
  lemma {:induction false} ReadLinesAppend(text: string, rest: string)
    requires text == [] || text[|text| - 1] == '\n'
    ensures ReadLines(text + rest) == ReadLines(text) + ReadLines(rest)
    decreases |text|
  {
    if text == [] {
      assert text + rest == rest;
    } else {
      assert '\n' in text by { assert text[|text| - 1] == '\n'; }
      var tail := text[IndexOf(text, '\n') + 1..];
      assert tail == [] || tail[|tail| - 1] == '\n' by {
        if tail != [] { assert tail[|tail| - 1] == text[|text| - 1]; }
      }
      ReadLinesAppend(tail, rest);
      ReadLinesAppendStep(text, rest);
    }
  }

  /** Concatenation takes a list extended at its end to the concatenation
      extended by that piece. */
  lemma {:induction false} ConcatAppend(ss: seq<string>, x: string)
    ensures Concat(ss + [x]) == Concat(ss) + x
  {
    if ss != [] {
      assert (ss + [x])[1..] == ss[1..] + [x];
      ConcatAppend(ss[1..], x);
    }
  }

  /** Writing whole lines after newline-terminated text adds exactly those
      lines to what `readlines()` gives back. */
  lemma ReadLinesAfter(text: string, lines: seq<string>)
    requires text == [] || text[|text| - 1] == '\n'
    requires forall k :: 0 <= k < |lines| ==> IsLine(lines[k])
    ensures ReadLines(text + Concat(lines)) == ReadLines(text) + lines
  {
    ReadLinesAppend(text, Concat(lines));
    ReadLinesConcat(lines);
  }
}
