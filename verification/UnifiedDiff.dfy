/** The line numbers beside a unified diff (GitChanges.tsx, `Diff`). */
module UnifiedDiff {
  import opened Basics
  import opened Markup

  // Decimal numbers, as they are printed and read.

  function DigitOf(d: nat): char
    requires d < 10
  {
    (d + '0' as nat) as char
  }

  predicate IsDigit(c: char) {
    '0' <= c <= '9'
  }

  function DigitValue(c: char): nat
    requires IsDigit(c)
  {
    c as int - '0' as int
  }

  function Decimal(n: nat): (s: string)
    ensures |s| > 0 && forall k :: 0 <= k < |s| ==> IsDigit(s[k])
  {
    if n < 10 then [DigitOf(n)] else Decimal(n / 10) + [DigitOf(n % 10)]
  }

  function NumberOf(digits: string): nat
    requires forall k :: 0 <= k < |digits| ==> IsDigit(digits[k])
  {
    if digits == "" then 0
    else NumberOf(digits[..|digits| - 1]) * 10 + DigitValue(digits[|digits| - 1])
  }

  lemma {:induction false} DecimalReads(n: nat)
    ensures NumberOf(Decimal(n)) == n
  {
    if n >= 10 {
      DecimalReads(n / 10);
      assert Decimal(n)[..|Decimal(n)| - 1] == Decimal(n / 10);
    } else {
      assert Decimal(n)[..0] == "";
    }
  }

  function DigitsEnd(line: string, i: nat): (end: nat)
    requires i <= |line|
    ensures i <= end <= |line|
    ensures forall k :: i <= k < end ==> IsDigit(line[k])
    ensures end < |line| ==> !IsDigit(line[end])
    decreases |line| - i
  {
    if i < |line| && IsDigit(line[i]) then DigitsEnd(line, i + 1) else i
  }

  // Reading one line.

  /** Where a range `k` or `k,n` that starts at `i` puts its first number and ends. */
  function Range(line: string, i: nat): (r: Option<(nat, nat)>)
    requires i <= |line|
    ensures r.Some? ==> i < r.value.1 <= |line|
  {
    var end := DigitsEnd(line, i);
    if end == i then None
    else if end < |line| && line[end] == ',' && DigitsEnd(line, end + 1) > end + 1 then
      Some((NumberOf(line[i..end]), DigitsEnd(line, end + 1)))
    else Some((NumberOf(line[i..end]), end))
  }

  /** The old and new line numbers of a hunk header. */
  function HunkHeader(line: string): Option<(nat, nat)> {
    if !At(line, 0, "@@ -") then None
    else
      match Range(line, 4)
      case None => None
      case Some((old_, mid)) =>
        if !At(line, mid, " +") then None
        else
          match Range(line, mid + 2)
          case None => None
          case Some((new_, end)) => if At(line, end, " @@") then Some((old_, new_)) else None
  }

  const HEADERS: seq<string> := [
    "diff ", "index ", "--- ", "+++ ", "new file", "deleted file", "similarity ", "rename ", "Binary ", "\\"]

  predicate IsHeader(line: string) {
    exists k :: 0 <= k < |HEADERS| && At(line, 0, HEADERS[k])
  }

  datatype Row =
    | Hunk(text: string)
    | Header(text: string)
    | Add(text: string, next: nat)
    | Delete(text: string, old_: nat)
    | Context(text: string, old_: nat, next: nat)

  /** The row of one line and the numbers of the lines after it. */
  function RowOf(line: string, oldLine: nat, newLine: nat): (Row, nat, nat) {
    match HunkHeader(line)
    case Some((o, n)) => (Hunk(line), o, n)
    case None =>
      if IsHeader(line) || line == "" then (Header(line), oldLine, newLine)
      else if line[0] == '+' then (Add(line[1..], newLine), oldLine, newLine + 1)
      else if line[0] == '-' then (Delete(line[1..], oldLine), oldLine + 1, newLine)
      else if line[0] == ' ' then (Context(line[1..], oldLine, newLine), oldLine + 1, newLine + 1)
      else (Header(line), oldLine, newLine)
  }

  function Rows(lines: seq<string>, oldLine: nat, newLine: nat): (rows: seq<Row>)
    ensures |rows| == |lines|
    decreases |lines|
  {
    if lines == [] then []
    else
      var (row, o, n) := RowOf(lines[0], oldLine, newLine);
      [row] + Rows(lines[1..], o, n)
  }

  /** One row more. */
  lemma RowsGoOn(lines: seq<string>, at: nat, oldLine: nat, newLine: nat)
    requires at < |lines|
    ensures var (row, o, n) := RowOf(lines[at], oldLine, newLine);
      Rows(lines[at..], oldLine, newLine) == [row] + Rows(lines[at + 1..], o, n)
  {
    hide RowOf;
    assert lines[at..][1..] == lines[at + 1..];
  }

  /** `split` at each line end: the last line is what stands after the last of them. */
  function Split(text: string): (lines: seq<string>)
    ensures |lines| > 0
    decreases |text|
  {
    var at := FindChar(text, '\n', 0);
    if at == |text| then [text] else [text[..at]] + Split(text[at + 1..])
  }

  method Diff(text: string) returns (rows: seq<Row>)
    ensures rows == Rows(Split(text), 1, 1)
  {
    hide HunkHeader, IsHeader, Rows, Split;
    var lines := Split(text);
    var oldLine, newLine: nat := 1, 1;
    rows := [];
    ghost var all := Rows(lines, 1, 1);
    assert lines[0..] == lines;
    for at := 0 to |lines|
      invariant rows + Rows(lines[at..], oldLine, newLine) == all
    {
      RowsGoOn(lines, at, oldLine, newLine);
      var line := lines[at];
      var hunk := HunkHeader(line);
      if hunk.Some? {
        oldLine, newLine := hunk.value.0, hunk.value.1;
        rows := rows + [Hunk(line)];
        continue;
      }
      if IsHeader(line) {
        rows := rows + [Header(line)];
      } else if |line| > 0 && line[0] == '+' {
        rows := rows + [Add(line[1..], newLine)];
        newLine := newLine + 1;
      } else if |line| > 0 && line[0] == '-' {
        rows := rows + [Delete(line[1..], oldLine)];
        oldLine := oldLine + 1;
      } else if |line| > 0 && line[0] == ' ' {
        rows := rows + [Context(line[1..], oldLine, newLine)];
        oldLine, newLine := oldLine + 1, newLine + 1;
      } else {
        rows := rows + [Header(line)];
      }
    }
    NoRows(oldLine, newLine);
    assert lines[|lines|..] == [];
  }

  lemma NoRows(oldLine: nat, newLine: nat)
    ensures Rows([], oldLine, newLine) == []
  {
  }

  // Diffs as they are printed, hunk by hunk.

  datatype Edit = Keep(text: string) | Remove(text: string) | Insert(text: string) | NoNewline

  /** A hunk: the header lines of its file when it is the first, the lines of each file before it,
      what its own header says after the ranges, and its edits. */
  datatype Change = Change(
    preamble: seq<string>, oldBefore: nat, newBefore: nat, heading: string, edits: seq<Edit>)

  function OldLines(edits: seq<Edit>): seq<string> {
    if edits == [] then []
    else if edits[0].Keep? || edits[0].Remove? then [edits[0].text] + OldLines(edits[1..])
    else OldLines(edits[1..])
  }

  function NewLines(edits: seq<Edit>): seq<string> {
    if edits == [] then []
    else if edits[0].Keep? || edits[0].Insert? then [edits[0].text] + NewLines(edits[1..])
    else NewLines(edits[1..])
  }

  /** A range: its first line, or the line before it when it is empty, and its length unless 1. */
  function PrintRange(before: nat, count: nat): string {
    if count == 1 then Decimal(before + 1)
    else Decimal(if count == 0 then before else before + 1) + ("," + Decimal(count))
  }

  function PrintHeader(change: Change): string {
    "@@ -" + (PrintRange(change.oldBefore, |OldLines(change.edits)|) +
    (" +" + (PrintRange(change.newBefore, |NewLines(change.edits)|) + (" @@" + change.heading))))
  }

  function PrintEdit(edit: Edit): string {
    match edit
    case Keep(text) => " " + text
    case Remove(text) => "-" + text
    case Insert(text) => "+" + text
    case NoNewline => "\\ No newline at end of file"
  }

  function PrintEdits(edits: seq<Edit>): (lines: seq<string>)
    ensures |lines| == |edits|
  {
    if edits == [] then [] else [PrintEdit(edits[0])] + PrintEdits(edits[1..])
  }

  function PrintDiff(changes: seq<Change>): seq<string> {
    if changes == [] then []
    else changes[0].preamble + ([PrintHeader(changes[0])] + (PrintEdits(changes[0].edits) + PrintDiff(changes[1..])))
  }

  // What the rows of a printed diff should be.

  /** The row an edit should have, and the numbers of the lines after it. */
  function ExpectOne(edit: Edit, oldLine: nat, newLine: nat): (Row, nat, nat) {
    match edit
    case Keep(text) => (Context(text, oldLine, newLine), oldLine + 1, newLine + 1)
    case Remove(text) => (Delete(text, oldLine), oldLine + 1, newLine)
    case Insert(text) => (Add(text, newLine), oldLine, newLine + 1)
    case NoNewline => (Header(PrintEdit(NoNewline)), oldLine, newLine)
  }

  function ExpectEdits(edits: seq<Edit>, oldLine: nat, newLine: nat): (rows: seq<Row>)
    ensures |rows| == |edits|
    decreases |edits|
  {
    if edits == [] then []
    else
      var (row, o, n) := ExpectOne(edits[0], oldLine, newLine);
      [row] + ExpectEdits(edits[1..], o, n)
  }

  function Headers(lines: seq<string>): seq<Row> {
    if lines == [] then [] else [Header(lines[0])] + Headers(lines[1..])
  }

  function Expect(changes: seq<Change>): seq<Row> {
    if changes == [] then []
    else
      var change := changes[0];
      Headers(change.preamble) + ([Hunk(PrintHeader(change))] +
      (ExpectEdits(change.edits, change.oldBefore + 1, change.newBefore + 1) + Expect(changes[1..])))
  }

  /** The hunk turns what stands there in the old file into what stands there in the new one. */
  predicate Applies(old_: seq<string>, new_: seq<string>, oldBefore: nat, newBefore: nat, edits: seq<Edit>) {
    && oldBefore + |OldLines(edits)| <= |old_|
    && old_[oldBefore..oldBefore + |OldLines(edits)|] == OldLines(edits)
    && newBefore + |NewLines(edits)| <= |new_|
    && new_[newBefore..newBefore + |NewLines(edits)|] == NewLines(edits)
  }

  predicate LineIs(file: seq<string>, number: nat, text: string) {
    1 <= number <= |file| && file[number - 1] == text
  }

  /** A row labelled with a line of a file shows that line. */
  predicate ShowsRight(old_: seq<string>, new_: seq<string>, row: Row) {
    match row
    case Context(text, k, j) => LineIs(old_, k, text) && LineIs(new_, j, text)
    case Delete(text, k) => LineIs(old_, k, text)
    case Add(text, j) => LineIs(new_, j, text)
    case _ => true
  }

  /** The labels expected of a hunk are right for every pair of files it applies to. */
  lemma {:induction false} ExpectedShowsRight(old_: seq<string>, new_: seq<string>, o: nat, n: nat, edits: seq<Edit>)
    requires Applies(old_, new_, o, n, edits)
    ensures forall row :: row in ExpectEdits(edits, o + 1, n + 1) ==> ShowsRight(old_, new_, row)
    decreases |edits|
  {
    if edits != [] {
      var rest := edits[1..];
      var o', n' := o + (if edits[0].Keep? || edits[0].Remove? then 1 else 0), n + (if edits[0].Keep? || edits[0].Insert? then 1 else 0);
      if o' > o {
        assert old_[o..o + |OldLines(edits)|][0] == old_[o];
        assert old_[o + 1..o + |OldLines(edits)|] == old_[o..o + |OldLines(edits)|][1..];
      }
      if n' > n {
        assert new_[n..n + |NewLines(edits)|][0] == new_[n];
        assert new_[n + 1..n + |NewLines(edits)|] == new_[n..n + |NewLines(edits)|][1..];
      }
      ExpectedShowsRight(old_, new_, o', n', rest);
    }
  }

  /** The lines a file header would be mistaken for. */
  predicate Mistakable(edit: Edit) {
    || (edit.Remove? && At(edit.text, 0, "-- "))
    || (edit.Insert? && At(edit.text, 0, "++ "))
  }

  predicate Plain(edits: seq<Edit>) {
    edits == [] || (!Mistakable(edits[0]) && Plain(edits[1..]))
  }

  // Hunk headers are read as they were printed.

  lemma {:induction false} DigitsAre(line: string, i: nat, end: nat)
    requires i <= end <= |line| && (end == |line| || !IsDigit(line[end]))
    requires forall k :: i <= k < end ==> IsDigit(line[k])
    ensures DigitsEnd(line, i) == end
    decreases end - i
  {
    if i < end {
      DigitsAre(line, i + 1, end);
    }
  }

  lemma DecimalAt(line: string, i: nat, n: nat)
    requires At(line, i, Decimal(n))
    requires i + |Decimal(n)| == |line| || !IsDigit(line[i + |Decimal(n)|])
    ensures DigitsEnd(line, i) == i + |Decimal(n)| && NumberOf(line[i..i + |Decimal(n)|]) == n
  {
    forall k | i <= k < i + |Decimal(n)| ensures IsDigit(line[k]) {
      AtChar(line, i, Decimal(n), k - i);
    }
    DigitsAre(line, i, i + |Decimal(n)|);
    DecimalReads(n);
  }

  /** The number a range is printed with. */
  function FirstOf(before: nat, count: nat): nat {
    if count == 0 then before else before + 1
  }

  lemma OneReads(line: string, i: nat, first: nat)
    requires At(line, i, Decimal(first))
    requires var end := i + |Decimal(first)|; end < |line| && line[end] == ' '
    ensures Range(line, i) == Some((first, i + |Decimal(first)|))
  {
    hide DigitsEnd, Decimal, NumberOf, At;
    DecimalAt(line, i, first);
  }

  lemma TwoRead(line: string, i: nat, first: nat, count: nat)
    requires At(line, i, Decimal(first) + ("," + Decimal(count)))
    requires var end := i + |Decimal(first)| + 1 + |Decimal(count)|; end < |line| && line[end] == ' '
    ensures Range(line, i) == Some((first, i + |Decimal(first)| + 1 + |Decimal(count)|))
  {
    hide DigitsEnd, Decimal, NumberOf, At;
    AtSplit(line, i, Decimal(first), "," + Decimal(count));
    AtSplit(line, i + |Decimal(first)|, ",", Decimal(count));
    AtChar(line, i + |Decimal(first)|, ",", 0);
    DecimalAt(line, i, first);
    DecimalAt(line, i + |Decimal(first)| + 1, count);
  }

  lemma RangeReads(line: string, i: nat, before: nat, count: nat)
    requires At(line, i, PrintRange(before, count))
    requires var end := i + |PrintRange(before, count)|; end < |line| && line[end] == ' '
    ensures Range(line, i) == Some((FirstOf(before, count), i + |PrintRange(before, count)|))
  {
    hide Decimal, At, Range;
    if count == 1 {
      OneReads(line, i, FirstOf(before, count));
    } else {
      TwoRead(line, i, FirstOf(before, count), count);
    }
  }

  lemma HeaderReads(change: Change)
    ensures HunkHeader(PrintHeader(change)) ==
      Some((FirstOf(change.oldBefore, |OldLines(change.edits)|), FirstOf(change.newBefore, |NewLines(change.edits)|)))
  {
    hide Range, PrintRange, At, FirstOf, OldLines, NewLines;
    var line := PrintHeader(change);
    var a, b := PrintRange(change.oldBefore, |OldLines(change.edits)|), PrintRange(change.newBefore, |NewLines(change.edits)|);
    AtWhole(line);
    AtSplit(line, 0, "@@ -", a + (" +" + (b + (" @@" + change.heading))));
    AtSplit(line, 4, a, " +" + (b + (" @@" + change.heading)));
    AtSplit(line, 4 + |a|, " +", b + (" @@" + change.heading));
    AtSplit(line, 4 + |a| + 2, b, " @@" + change.heading);
    AtSplit(line, 4 + |a| + 2 + |b|, " @@", change.heading);
    AtChar(line, 4 + |a|, " +", 0);
    AtChar(line, 4 + |a| + 2 + |b|, " @@", 0);
    RangeReads(line, 4, change.oldBefore, |OldLines(change.edits)|);
    RangeReads(line, 4 + |a| + 2, change.newBefore, |NewLines(change.edits)|);
  }

  // Edits are read as they were printed, unless one is taken for a file header.

  lemma NoHunk(line: string)
    requires line == "" || line[0] != '@'
    ensures HunkHeader(line).None?
  {
    if At(line, 0, "@@ -") {
      AtChar(line, 0, "@@ -", 0);
    }
  }

  lemma AtFront(c: char, text: string, pattern: string)
    requires pattern != ""
    ensures At([c] + text, 0, pattern) == (c == pattern[0] && At(text, 0, pattern[1..]))
  {
    var line := [c] + text;
    if |pattern| <= |line| {
      assert line[0..|pattern|] == [c] + text[..|pattern| - 1];
      assert text[0..|pattern| - 1] == text[..|pattern| - 1];
      assert pattern == [pattern[0]] + pattern[1..];
    }
  }

  lemma EditHeader(edit: Edit)
    ensures IsHeader(PrintEdit(edit)) == (edit.NoNewline? || Mistakable(edit))
    ensures HunkHeader(PrintEdit(edit)).None?
  {
    var line := PrintEdit(edit);
    NoHunk(line);
    if edit.NoNewline? {
      assert line[0..1] == "\\";
      assert At(line, 0, HEADERS[9]);
    } else {
      var c := if edit.Keep? then ' ' else if edit.Remove? then '-' else '+';
      assert line == [c] + edit.text;
      forall k | 0 <= k < |HEADERS| ensures At(line, 0, HEADERS[k]) == (c == HEADERS[k][0] && At(edit.text, 0, HEADERS[k][1..])) {
        AtFront(c, edit.text, HEADERS[k]);
      }
      HeaderStarts();
      if Mistakable(edit) {
        assert At(line, 0, if edit.Remove? then HEADERS[2] else HEADERS[3]);
      }
    }
  }

  lemma HeaderStarts()
    ensures HEADERS[2][0] == '-' && HEADERS[2][1..] == "-- " && HEADERS[3][0] == '+' && HEADERS[3][1..] == "++ "
    ensures forall k :: 0 <= k < |HEADERS| ==> HEADERS[k] != "" && HEADERS[k][0] != ' '
    ensures forall k :: 0 <= k < |HEADERS| && k != 2 ==> HEADERS[k][0] != '-'
    ensures forall k :: 0 <= k < |HEADERS| && k != 3 ==> HEADERS[k][0] != '+'
  {
  }

  /** The row of an edit: the one it should have, unless it is mistaken for a header. */
  lemma EditRow(edit: Edit, o: nat, n: nat)
    ensures RowOf(PrintEdit(edit), o, n) ==
      if Mistakable(edit) then (Header(PrintEdit(edit)), o, n) else ExpectOne(edit, o, n)
    ensures Mistakable(edit) ==> Header(PrintEdit(edit)) != ExpectOne(edit, o, n).0
  {
    hide HunkHeader, IsHeader;
    EditHeader(edit);
    if !edit.NoNewline? {
      assert PrintEdit(edit)[1..] == edit.text;
    }
  }

  lemma RowsFront(first: string, rest: seq<string>, o: nat, n: nat)
    ensures var (row, o', n') := RowOf(first, o, n);
      Rows([first] + rest, o, n) == [row] + Rows(rest, o', n')
  {
    hide RowOf;
    assert ([first] + rest)[1..] == rest;
  }

  /** The rows of a hunk's lines, whatever comes after them. */
  lemma {:induction false} EditsRows(edits: seq<Edit>, rest: seq<string>, o: nat, n: nat) returns (read: seq<Row>, o': nat, n': nat)
    ensures Rows(PrintEdits(edits) + rest, o, n) == read + Rows(rest, o', n')
    ensures |read| == |edits|
    ensures read == ExpectEdits(edits, o, n) <==> Plain(edits)
    decreases |edits|
  {
    hide RowOf, Mistakable, Rows, ExpectOne, PrintEdit;
    read, o', n' := [], o, n;
    if edits == [] {
      assert PrintEdits(edits) + rest == rest;
    } else {
      var first, others := PrintEdit(edits[0]), edits[1..];
      EditRow(edits[0], o, n);
      var (row, o1, n1) := RowOf(first, o, n);
      assert PrintEdits(edits) + rest == [first] + (PrintEdits(others) + rest);
      RowsFront(first, PrintEdits(others) + rest, o, n);
      var more;
      more, o', n' := EditsRows(others, rest, o1, n1);
      read := [row] + more;
      assert read + Rows(rest, o', n') == [row] + (more + Rows(rest, o', n'));
      var (expected, o2, n2) := ExpectOne(edits[0], o, n);
      SameFront(row, more, expected, ExpectEdits(others, o2, n2));
    }
  }

  lemma SameFront(a: Row, more: seq<Row>, b: Row, bs: seq<Row>)
    ensures [a] + more == [b] + bs <==> a == b && more == bs
  {
    assert ([a] + more)[0] == a && ([b] + bs)[0] == b;
    assert ([a] + more)[1..] == more && ([b] + bs)[1..] == bs;
  }

  lemma SameParts(a: seq<Row>, more: seq<Row>, b: seq<Row>, bs: seq<Row>)
    requires |a| == |b|
    ensures a + more == b + bs <==> a == b && more == bs
  {
    assert (a + more)[..|a|] == a && (b + bs)[..|a|] == b;
    assert (a + more)[|a|..] == more && (b + bs)[|a|..] == bs;
  }

  /** The numbers of a file none of whose lines is in the hunk do not matter. */
  lemma {:induction false} FirstDoesNotMatter(edits: seq<Edit>, o: nat, n: nat, o': nat, n': nat)
    requires OldLines(edits) != [] ==> o == o'
    requires NewLines(edits) != [] ==> n == n'
    ensures ExpectEdits(edits, o, n) == ExpectEdits(edits, o', n')
    decreases |edits|
  {
    if edits != [] {
      var (row, o1, n1) := ExpectOne(edits[0], o, n);
      var (row', o2, n2) := ExpectOne(edits[0], o', n');
      FirstDoesNotMatter(edits[1..], o1, n1, o2, n2);
    }
  }

  /** A line that is shown as it stands and moves no number: neither a hunk header nor a line of a hunk. */
  predicate StandsAlone(line: string) {
    HunkHeader(line).None? && (IsHeader(line) || line == "" || line[0] !in "+- ")
  }

  predicate AreHeaders(lines: seq<string>) {
    lines == [] || (StandsAlone(lines[0]) && AreHeaders(lines[1..]))
  }

  /** What a diff may tell of a file besides its lines. */
  lemma ModesStandAlone(rest: string)
    ensures StandsAlone("old mode " + rest) && StandsAlone("new mode " + rest) && StandsAlone("copy from " + rest)
  {
    NoHunk("old mode " + rest);
    NoHunk("new mode " + rest);
    NoHunk("copy from " + rest);
  }

  lemma {:induction false} PreambleRows(preamble: seq<string>, rest: seq<string>, o: nat, n: nat)
    requires AreHeaders(preamble)
    ensures Rows(preamble + rest, o, n) == Headers(preamble) + Rows(rest, o, n)
    decreases |preamble|
  {
    hide HunkHeader, IsHeader, Rows;
    if preamble == [] {
      assert preamble + rest == rest;
      assert Headers(preamble) == [];
    } else {
      var others := preamble[1..];
      assert preamble + rest == [preamble[0]] + (others + rest);
      RowsFront(preamble[0], others + rest, o, n);
      PreambleRows(others, rest, o, n);
    }
  }

  predicate Printable(changes: seq<Change>) {
    changes == [] || (AreHeaders(changes[0].preamble) && Printable(changes[1..]))
  }

  predicate AllPlain(changes: seq<Change>) {
    changes == [] || (Plain(changes[0].edits) && AllPlain(changes[1..]))
  }

  lemma HunkRows(change: Change, rest: seq<string>, o: nat, n: nat) returns (read: seq<Row>, o': nat, n': nat)
    requires AreHeaders(change.preamble)
    ensures Rows(change.preamble + ([PrintHeader(change)] + (PrintEdits(change.edits) + rest)), o, n) ==
      Headers(change.preamble) + ([Hunk(PrintHeader(change))] + (read + Rows(rest, o', n')))
    ensures |read| == |change.edits|
    ensures read == ExpectEdits(change.edits, change.oldBefore + 1, change.newBefore + 1) <==> Plain(change.edits)
  {
    hide HunkHeader, IsHeader, Rows, PrintHeader, AreHeaders, Headers, Plain, ExpectEdits, PrintEdits;
    var header, edits := PrintHeader(change), change.edits;
    PreambleRows(change.preamble, [header] + (PrintEdits(edits) + rest), o, n);
    HeaderReads(change);
    RowsFront(header, PrintEdits(edits) + rest, o, n);
    var o1, n1 := FirstOf(change.oldBefore, |OldLines(edits)|), FirstOf(change.newBefore, |NewLines(edits)|);
    read, o', n' := EditsRows(edits, rest, o1, n1);
    FirstDoesNotMatter(edits, o1, n1, change.oldBefore + 1, change.newBefore + 1);
  }

  lemma SameChange(headers: seq<Row>, header: Row, read: seq<Row>, expected: seq<Row>, more: seq<Row>, expectedMore: seq<Row>)
    requires |read| == |expected|
    ensures headers + ([header] + (read + more)) == headers + ([header] + (expected + expectedMore)) <==>
      read == expected && more == expectedMore
  {
    SameParts(read, more, expected, expectedMore);
    SameFront(header, read + more, header, expected + expectedMore);
    SameParts(headers, [header] + (read + more), headers, [header] + (expected + expectedMore));
  }

  lemma {:induction false} ChangesRows(changes: seq<Change>, o: nat, n: nat)
    requires Printable(changes)
    ensures Rows(PrintDiff(changes), o, n) == Expect(changes) <==> AllPlain(changes)
    decreases |changes|
  {
    hide PrintHeader, Headers, Plain, ExpectEdits, PrintEdits, AreHeaders, RowOf;
    if changes != [] {
      var change, rest := changes[0], PrintDiff(changes[1..]);
      var read, o', n' := HunkRows(change, rest, o, n);
      hide Rows;
      ChangesRows(changes[1..], o', n');
      var expected := ExpectEdits(change.edits, change.oldBefore + 1, change.newBefore + 1);
      SameChange(Headers(change.preamble), Hunk(PrintHeader(change)), read, expected, Rows(rest, o', n'), Expect(changes[1..]));
    }
  }

  /** The text of some lines, with a line end between each and the next. */
  function Joined(lines: seq<string>): string
    requires lines != []
  {
    if |lines| == 1 then lines[0] else lines[0] + ("\n" + Joined(lines[1..]))
  }

  predicate AreLines(lines: seq<string>) {
    forall k :: 0 <= k < |lines| ==> '\n' !in lines[k]
  }

  /** Splitting undoes joining. */
  lemma {:induction false} SplitJoined(lines: seq<string>)
    requires lines != [] && AreLines(lines)
    ensures Split(Joined(lines)) == lines
  {
    var text, first := Joined(lines), lines[0];
    if |lines| == 1 {
      assert FindChar(text, '\n', 0) == |text|;
    } else {
      assert text[|first|] == '\n' && text[..|first|] == first && text[|first| + 1..] == Joined(lines[1..]);
      FindCharAt(text, '\n', 0, |first|) by {
        assert forall k :: 0 <= k < |first| ==> text[k] == first[k];
      }
      assert AreLines(lines[1..]);
      SplitJoined(lines[1..]);
    }
  }

  /** The lines of a printed diff; its text may end in a line end or not. */
  function DiffLines(changes: seq<Change>, ended: bool): seq<string> {
    PrintDiff(changes) + if ended then [""] else []
  }

  lemma {:induction false} LastRow(lines: seq<string>, o: nat, n: nat)
    ensures Rows(lines + [""], o, n) == Rows(lines, o, n) + [Header("")]
    decreases |lines|
  {
    if lines == [] {
      NoHunk("");
      assert lines + [""] == [""] && [""][1..] == [];
    } else {
      var (row, o', n') := RowOf(lines[0], o, n);
      assert (lines + [""])[1..] == lines[1..] + [""];
      LastRow(lines[1..], o', n');
    }
  }

  /** The rows shown of a printed diff are the rows it should have exactly when no removed line
      starts with `-- ` and no added line with `++ `. */
  lemma DiffIsRight(changes: seq<Change>, ended: bool)
    requires Printable(changes) && DiffLines(changes, ended) != [] && AreLines(DiffLines(changes, ended))
    ensures Rows(Split(Joined(DiffLines(changes, ended))), 1, 1) == Expect(changes) + (if ended then [Header("")] else [])
      <==> AllPlain(changes)
  {
    hide Rows, Split, Joined, Expect, PrintDiff, AllPlain, Printable;
    SplitJoined(DiffLines(changes, ended));
    ChangesRows(changes, 1, 1);
    LastRow(PrintDiff(changes), 1, 1);
    SameRows(Rows(PrintDiff(changes), 1, 1), Expect(changes), [Header("")]);
    assert PrintDiff(changes) + [] == PrintDiff(changes) && Expect(changes) + [] == Expect(changes);
  }

  lemma SameRows(a: seq<Row>, b: seq<Row>, c: seq<Row>)
    ensures a + c == b + c <==> a == b
  {
    if a + c == b + c {
      assert |a| == |b| && (a + c)[..|a|] == a && (b + c)[..|b|] == b;
    }
  }

  /** Such a line: the comment `-- x` taken out of a file is shown as a header, without a number. */
  lemma RemovedCommentIsMisread()
    ensures var changes := [Change([], 0, 0, "", [Remove("-- x")])];
      Rows(PrintDiff(changes), 1, 1) != Expect(changes)
  {
    var changes := [Change([], 0, 0, "", [Remove("-- x")])];
    assert "-- x"[0..3] == "-- ";
    assert At("-- x", 0, "-- ");
    assert !Plain(changes[0].edits);
    ChangesRows(changes, 1, 1);
  }

  predicate AllApply(old_: seq<string>, new_: seq<string>, changes: seq<Change>) {
    forall k :: 0 <= k < |changes| ==> Applies(old_, new_, changes[k].oldBefore, changes[k].newBefore, changes[k].edits)
  }

  lemma {:induction false} ExpectedAllRight(old_: seq<string>, new_: seq<string>, changes: seq<Change>)
    requires AllApply(old_, new_, changes)
    ensures forall row :: row in Expect(changes) ==> ShowsRight(old_, new_, row)
    decreases |changes|
  {
    hide Applies, PrintHeader;
    if changes != [] {
      var change := changes[0];
      ExpectedShowsRight(old_, new_, change.oldBefore, change.newBefore, change.edits);
      ExpectedAllRight(old_, new_, changes[1..]);
      HeadersShowNothing(change.preamble);
    }
  }

  lemma {:induction false} HeadersShowNothing(lines: seq<string>)
    ensures forall row :: row in Headers(lines) ==> row.Header?
  {
    if lines != [] {
      HeadersShowNothing(lines[1..]);
    }
  }

  /** For every old file, new file and edit script printed as unified hunks: a row labelled with
      a line of either file shows that line. */
  lemma LabelsAreRight(old_: seq<string>, new_: seq<string>, changes: seq<Change>, ended: bool)
    requires Printable(changes) && DiffLines(changes, ended) != [] && AreLines(DiffLines(changes, ended))
    requires AllPlain(changes) && AllApply(old_, new_, changes)
    ensures forall row :: row in Rows(Split(Joined(DiffLines(changes, ended))), 1, 1) ==> ShowsRight(old_, new_, row)
  {
    hide Rows, Split, Joined, Expect, PrintDiff, AllPlain, Printable, AllApply;
    DiffIsRight(changes, ended);
    ExpectedAllRight(old_, new_, changes);
  }
}
