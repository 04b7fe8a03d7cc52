/** What the counter of accepted lines counts in any text, printed by git or not. */
module AcceptedLineTheorems {
  import opened AcceptedLines

  // ----- Which lines count

  /** A hunk header is the last header before line `i`. */
  ghost predicate InHunk(lines: seq<string>, i: nat)
    requires i <= |lines|
  {
    exists k :: 0 <= k < i && "@@ " <= lines[k] && forall j :: k < j < i ==> !("diff --git " <= lines[j])
  }

  /** A line that starts with the mark and, outside a hunk, is not the name of a file. */
  ghost predicate Counts(lines: seq<string>, i: nat, mark: string)
    requires i < |lines|
  {
    mark <= lines[i] && (InHunk(lines, i) || !(mark + mark + mark + " " <= lines[i]))
  }

  ghost function CountedIn(lines: seq<string>, n: nat, mark: string): set<nat>
    requires n <= |lines|
  {
    set i: nat | i < n && Counts(lines, i, mark)
  }

  lemma {:induction false} ScanSnoc(s: Scan, lines: seq<string>, n: nat)
    requires n < |lines|
    ensures ScanLines(s, lines[..n+1]) == ScanLine(ScanLines(s, lines[..n]), lines[n])
  {
    assert lines[..n+1] == lines[..n] + [lines[n]];
    ScanAppend(s, lines[..n], [lines[n]]);
    assert [lines[n]][1..] == [];
  }

  lemma Marks(line: string)
    ensures "diff --git " <= line ==> line[0] == 'd'
    ensures "@@ " <= line ==> line[0] == '@'
    ensures "+" <= line <==> line != "" && line[0] == '+'
    ensures "-" <= line <==> line != "" && line[0] == '-'
    ensures "+++ " <= line ==> line[0] == '+'
    ensures "--- " <= line ==> line[0] == '-'
  {
    assert "diff --git "[0] == 'd' && "@@ "[0] == '@' && "+++ "[0] == '+' && "--- "[0] == '-';
  }

  lemma HunkStep(lines: seq<string>, n: nat)
    requires n < |lines|
    ensures InHunk(lines, n + 1) <==>
      !("diff --git " <= lines[n]) && ("@@ " <= lines[n] || InHunk(lines, n))
  {
    Marks(lines[n]);
  }

  lemma OneMoreLine(lines: seq<string>, n: nat, mark: string)
    requires n < |lines|
    ensures |CountedIn(lines, n + 1, mark)| == |CountedIn(lines, n, mark)| + if Counts(lines, n, mark) then 1 else 0
  {
    assert CountedIn(lines, n + 1, mark)
      == CountedIn(lines, n, mark) + if Counts(lines, n, mark) then {n} else {};
  }

  lemma LineCounted(lines: seq<string>, n: nat, s: Scan)
    requires n < |lines| && s.inHunk == InHunk(lines, n)
    ensures var t := ScanLine(s, lines[n]);
      && t.counts.added == s.counts.added + (if Counts(lines, n, "+") then 1 else 0)
      && t.counts.deleted == s.counts.deleted + (if Counts(lines, n, "-") then 1 else 0)
  {
    Marks(lines[n]);
    assert "+" + "+" + "+" + " " == "+++ " && "-" + "-" + "-" + " " == "--- ";
  }

  /** After the first `n` lines the counter knows where it is, and has counted what counts. */
  ghost predicate Tracks(s: Scan, lines: seq<string>, n: nat)
    requires n <= |lines|
  {
    && s.inHunk == InHunk(lines, n)
    && s.counts.added == |CountedIn(lines, n, "+")| && s.counts.deleted == |CountedIn(lines, n, "-")|
  }

  lemma TracksNext(s: Scan, lines: seq<string>, n: nat)
    requires n < |lines| && Tracks(s, lines, n)
    ensures Tracks(ScanLine(s, lines[n]), lines, n + 1)
  {
    OneMoreLine(lines, n, "+");
    OneMoreLine(lines, n, "-");
    LineCounted(lines, n, s);
    assert ScanLine(s, lines[n]).inHunk == InHunk(lines, n + 1) by {
      HunkStep(lines, n);
      Marks(lines[n]);
    }
  }

  lemma {:induction false} ScanCounts(lines: seq<string>, n: nat)
    requires n <= |lines|
    ensures Tracks(ScanLines(START, lines[..n]), lines, n)
  {
    if n == 0 {
      assert CountedIn(lines, 0, "+") == {} && CountedIn(lines, 0, "-") == {};
    } else {
      ScanCounts(lines, n - 1);
      ScanSnoc(START, lines, n - 1);
      TracksNext(ScanLines(START, lines[..n-1]), lines, n - 1);
    }
  }

  /** Any text counts exactly as many added and deleted lines as it has lines that count as such. */
  lemma CountsExactly(diff: string)
    ensures var lines := Lines(diff, "");
      && CountsOf(diff).added == |CountedIn(lines, |lines|, "+")|
      && CountsOf(diff).deleted == |CountedIn(lines, |lines|, "-")|
  {
    var lines := Lines(diff, "");
    ScanCounts(lines, |lines|);
    assert lines[..|lines|] == lines;
  }

  // ----- Which lines a text has

  /** A line with the end it is written with. */
  datatype Ended = Ended(text: string, crlf: bool)

  function Written(lines: seq<Ended>, last: string): string {
    if lines == [] then last
    else lines[0].text + ((if lines[0].crlf then "\r\n" else "\n") + Written(lines[1..], last))
  }

  function Texts(lines: seq<Ended>): seq<string> {
    if lines == [] then [] else [lines[0].text] + Texts(lines[1..])
  }

  /** No line holds LF, and one that ends in LF alone does not end in CR. */
  predicate Readable(line: Ended) {
    '\n' !in line.text && (line.crlf || line.text == "" || line.text[|line.text|-1] != '\r')
  }

  lemma LineRead(line: Ended, rest: string)
    requires Readable(line)
    ensures Lines(line.text + ((if line.crlf then "\r\n" else "\n") + rest), "") == [line.text] + Lines(rest, "")
  {
    if line.crlf {
      var full := line.text + "\r";
      assert line.text + ("\r\n" + rest) == full + ("\n" + rest);
      LinesOfText(full, "\n" + rest, "");
      assert "" + full == full && full[..|full|-1] == line.text;
    } else {
      LinesOfText(line.text, "\n" + rest, "");
      assert "" + line.text == line.text;
    }
    assert ("\n" + rest)[1..] == rest;
  }

  /** Lines are read back as written, whichever end each has, and so is an unfinished last one. */
  lemma {:induction false} WrittenReadsBack(lines: seq<Ended>, last: string)
    requires (forall i :: 0 <= i < |lines| ==> Readable(lines[i])) && '\n' !in last
    ensures Lines(Written(lines, last), "") == Texts(lines) + if last == "" then [] else [last]
  {
    if lines == [] {
      LinesOfText(last, "", "");
      assert last + "" == last && "" + last == last;
    } else {
      WrittenReadsBack(lines[1..], last);
      LineRead(lines[0], Written(lines[1..], last));
    }
  }
}
