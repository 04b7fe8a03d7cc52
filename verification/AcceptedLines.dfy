/** Counting the added and deleted lines of a unified diff. */
module AcceptedLines {

  datatype Counts = Counts(added: nat, deleted: nat)

  function Plus(a: Counts, b: Counts): Counts { Counts(a.added + b.added, a.deleted + b.deleted) }

  // ----- The counter

  datatype Scan = Scan(inHunk: bool, counts: Counts)

  function ScanLine(s: Scan, line: string): Scan {
    if "diff --git " <= line then s.(inHunk := false)
    else if "@@ " <= line then s.(inHunk := true)
    else if !s.inHunk && ("+++ " <= line || "--- " <= line) then s
    else if "+" <= line then s.(counts := Plus(s.counts, Counts(1, 0)))
    else if "-" <= line then s.(counts := Plus(s.counts, Counts(0, 1)))
    else s
  }

  function ScanLines(s: Scan, lines: seq<string>): Scan
    decreases |lines|
  {
    if lines == [] then s else ScanLines(ScanLine(s, lines[0]), lines[1..])
  }

  /** Rust's `str::lines`: ends at LF, drops one CR before it, and keeps an unfinished last line. */
  function Lines(text: string, line: string): seq<string> {
    if text == [] then (if line == [] then [] else [line])
    else if text[0] == '\n' then [WithoutCr(line)] + Lines(text[1..], "")
    else Lines(text[1..], line + [text[0]])
  }

  function WithoutCr(line: string): string {
    if line != [] && line[|line|-1] == '\r' then line[..|line|-1] else line
  }

  const START := Scan(false, Counts(0, 0))

  function CountsOf(diff: string): Counts { ScanLines(START, Lines(diff, "")).counts }

  method AcceptedLineCounts(diff: string) returns (counts: Counts)
    ensures counts == CountsOf(diff)
  {
    var lines := Lines(diff, "");
    var inHunk, added, deleted := false, 0, 0;
    ghost var final := ScanLines(START, lines);
    for i := 0 to |lines|
      invariant ScanLines(Scan(inHunk, Counts(added, deleted)), lines[i..]) == final
    {
      var line := lines[i];
      assert lines[i..][0] == line && lines[i..][1..] == lines[i+1..];
      if "diff --git " <= line {
        inHunk := false;
        continue;
      }
      if "@@ " <= line {
        inHunk := true;
        continue;
      }
      if !inHunk && ("+++ " <= line || "--- " <= line) { continue; }
      if "+" <= line {
        added := added + 1;
        continue;
      }
      if "-" <= line {
        deleted := deleted + 1;
      }
    }
    counts := Counts(added, deleted);
  }

  // ----- Diffs as git prints them

  datatype BodyLine = Added(text: string) | Deleted(text: string) | Context(text: string) | NoNewline
  {
    function Print(): string {
      match this
      case Added(t) => "+" + t
      case Deleted(t) => "-" + t
      case Context(t) => " " + t
      case NoNewline => "\\ No newline at end of file"
    }

    function Counted(): Counts { Counts(if Added? then 1 else 0, if Deleted? then 1 else 0) }
  }

  datatype Hunk = Hunk(range: string, body: seq<BodyLine>)

  /** `meta` are the extended header lines: modes, index, renames, binary notices. */
  datatype FileDiff = FileDiff(names: string, meta: seq<string>, oldName: string, newName: string, hunks: seq<Hunk>)

  function PrintBody(body: seq<BodyLine>): seq<string> {
    if body == [] then [] else [body[0].Print()] + PrintBody(body[1..])
  }

  function PrintHunk(h: Hunk): seq<string> { ["@@ " + h.range] + PrintBody(h.body) }

  function PrintHunks(hunks: seq<Hunk>): seq<string> {
    if hunks == [] then [] else PrintHunk(hunks[0]) + PrintHunks(hunks[1..])
  }

  /** Git names the two sides only of a file with hunks. */
  function PrintNames(f: FileDiff): seq<string> {
    if f.hunks == [] then [] else ["--- " + f.oldName, "+++ " + f.newName]
  }

  function PrintFile(f: FileDiff): seq<string> {
    ["diff --git " + f.names] + (f.meta + (PrintNames(f) + PrintHunks(f.hunks)))
  }

  function PrintFiles(files: seq<FileDiff>): seq<string> {
    if files == [] then [] else PrintFile(files[0]) + PrintFiles(files[1..])
  }

  function Unlines(lines: seq<string>): string {
    if lines == [] then "" else lines[0] + "\n" + Unlines(lines[1..])
  }

  function BodyCounts(body: seq<BodyLine>): Counts {
    if body == [] then Counts(0, 0) else Plus(body[0].Counted(), BodyCounts(body[1..]))
  }

  function HunkCounts(hunks: seq<Hunk>): Counts {
    if hunks == [] then Counts(0, 0) else Plus(BodyCounts(hunks[0].body), HunkCounts(hunks[1..]))
  }

  function FileCounts(files: seq<FileDiff>): Counts {
    if files == [] then Counts(0, 0) else Plus(HunkCounts(files[0].hunks), FileCounts(files[1..]))
  }

  /** Header lines that cannot be taken for a body line or a hunk. */
  predicate IsMeta(line: string) {
    !("+" <= line) && !("-" <= line) && !("@@ " <= line)
  }

  ghost predicate PlainMeta(f: FileDiff) {
    forall i :: 0 <= i < |f.meta| ==> IsMeta(f.meta[i])
  }

  ghost predicate WellFormed(files: seq<FileDiff>) {
    && (forall i :: 0 <= i < |files| ==> PlainMeta(files[i]))
    && (forall i :: 0 <= i < |PrintFiles(files)| ==> '\n' !in PrintFiles(files)[i])
  }

  // ----- Printed diffs are counted right

  lemma {:induction false} ScanAppend(s: Scan, a: seq<string>, b: seq<string>)
    ensures ScanLines(s, a + b) == ScanLines(ScanLines(s, a), b)
    decreases |a|
  {
    if a == [] { assert a + b == b; } else {
      assert (a + b)[1..] == a[1..] + b;
      ScanAppend(ScanLine(s, a[0]), a[1..], b);
    }
  }

  /** In a hunk every body line counts for what it is, even one that looks like a file header. */
  lemma {:induction false} ScanBody(counts: Counts, body: seq<BodyLine>)
    ensures ScanLines(Scan(true, counts), PrintBody(body)) == Scan(true, Plus(counts, BodyCounts(body)))
    decreases |body|
  {
    if body != [] {
      var line := body[0].Print();
      assert line[0] in "+- \\" && "diff --git "[0] == 'd' && "@@ "[0] == '@';
      assert ScanLine(Scan(true, counts), line) == Scan(true, Plus(counts, body[0].Counted()));
      ScanBody(Plus(counts, body[0].Counted()), body[1..]);
    }
  }

  /** Scanned from any state, the lines add these counts. */
  ghost predicate Adds(lines: seq<string>, counts: Counts) {
    forall s :: ScanLines(s, lines).counts == Plus(s.counts, counts)
  }

  lemma AddsAppend(a: seq<string>, x: Counts, b: seq<string>, y: Counts)
    requires Adds(a, x) && Adds(b, y)
    ensures Adds(a + b, Plus(x, y))
  {
    forall s ensures ScanLines(s, a + b).counts == Plus(s.counts, Plus(x, y)) {
      ScanAppend(s, a, b);
    }
  }

  lemma HunkAdds(h: Hunk)
    ensures Adds(PrintHunk(h), BodyCounts(h.body))
  {
    forall s ensures ScanLines(s, PrintHunk(h)).counts == Plus(s.counts, BodyCounts(h.body)) {
      var header := "@@ " + h.range;
      assert header[0] == '@' && "diff --git "[0] == 'd';
      assert PrintHunk(h)[1..] == PrintBody(h.body);
      ScanBody(s.counts, h.body);
    }
  }

  lemma {:induction false} HunksAdd(hunks: seq<Hunk>)
    ensures Adds(PrintHunks(hunks), HunkCounts(hunks))
    decreases |hunks|
  {
    if hunks != [] {
      HunkAdds(hunks[0]);
      HunksAdd(hunks[1..]);
      AddsAppend(PrintHunk(hunks[0]), BodyCounts(hunks[0].body), PrintHunks(hunks[1..]), HunkCounts(hunks[1..]));
    }
  }

  lemma {:induction false} ScanMeta(counts: Counts, meta: seq<string>)
    requires forall i :: 0 <= i < |meta| ==> IsMeta(meta[i])
    ensures ScanLines(Scan(false, counts), meta) == Scan(false, counts)
  {
    if meta != [] { ScanMeta(counts, meta[1..]); }
  }

  lemma ScanNames(counts: Counts, oldName: string, newName: string)
    ensures ScanLines(Scan(false, counts), ["--- " + oldName, "+++ " + newName]) == Scan(false, counts)
  {
    var a, b := "--- " + oldName, "+++ " + newName;
    assert a[0] == '-' && b[0] == '+' && "diff --git "[0] == 'd' && "@@ "[0] == '@';
    var last: seq<string> := [b];
    assert [a, b][1..] == last && last[1..] == [];
    var s := Scan(false, counts);
    assert ScanLine(s, a) == s && ScanLine(s, b) == s;
    assert ScanLines(s, last) == ScanLines(ScanLine(s, b), last[1..]);
    assert ScanLines(s, [a, b]) == ScanLines(ScanLine(s, a), last);
  }

  lemma ScanHead(counts: Counts, f: FileDiff)
    requires PlainMeta(f)
    ensures ScanLines(Scan(false, counts), f.meta + PrintNames(f)) == Scan(false, counts)
  {
    ScanAppend(Scan(false, counts), f.meta, PrintNames(f));
    ScanMeta(counts, f.meta);
    ScanNames(counts, f.oldName, f.newName);
  }

  lemma ScanFile(s: Scan, f: FileDiff)
    requires PlainMeta(f)
    ensures ScanLines(s, PrintFile(f)).counts == Plus(s.counts, HunkCounts(f.hunks))
  {
    var first, head, hunks := "diff --git " + f.names, f.meta + PrintNames(f), PrintHunks(f.hunks);
    assert PrintFile(f) == [first] + (head + hunks);
    assert ([first] + (head + hunks))[1..] == head + hunks;
    var out := Scan(false, s.counts);
    ScanAppend(out, head, hunks);
    ScanHead(s.counts, f);
    HunksAdd(f.hunks);
  }

  lemma FileAdds(f: FileDiff)
    requires PlainMeta(f)
    ensures Adds(PrintFile(f), HunkCounts(f.hunks))
  {
    forall s ensures ScanLines(s, PrintFile(f)).counts == Plus(s.counts, HunkCounts(f.hunks)) {
      ScanFile(s, f);
    }
  }

  lemma {:induction false} FilesAdd(files: seq<FileDiff>)
    requires forall i :: 0 <= i < |files| ==> PlainMeta(files[i])
    ensures Adds(PrintFiles(files), FileCounts(files))
    decreases |files|
  {
    if files != [] {
      FileAdds(files[0]);
      FilesAdd(files[1..]);
      AddsAppend(PrintFile(files[0]), HunkCounts(files[0].hunks), PrintFiles(files[1..]), FileCounts(files[1..]));
    }
  }

  lemma {:induction false} LinesOfText(text: string, rest: string, line: string)
    requires '\n' !in text
    ensures Lines(text + rest, line) == Lines(rest, line + text)
  {
    if text == [] {
      assert text + rest == rest && line + text == line;
    } else {
      assert (text + rest)[1..] == text[1..] + rest;
      assert line + [text[0]] + text[1..] == line + text;
      LinesOfText(text[1..], rest, line + [text[0]]);
    }
  }

  /** A trailing CR never decides how a line is counted. */
  lemma CrIsIrrelevant(s: Scan, line: string)
    ensures ScanLine(s, WithoutCr(line)) == ScanLine(s, line)
  {
  }

  lemma {:induction false} ScanUnlines(s: Scan, lines: seq<string>)
    requires forall i :: 0 <= i < |lines| ==> '\n' !in lines[i]
    ensures ScanLines(s, Lines(Unlines(lines), "")) == ScanLines(s, lines)
    decreases |lines|
  {
    if lines != [] {
      var rest := Unlines(lines[1..]);
      assert Unlines(lines) == lines[0] + ("\n" + rest);
      LinesOfText(lines[0], "\n" + rest, "");
      assert "" + lines[0] == lines[0] && ("\n" + rest)[1..] == rest;
      CrIsIrrelevant(s, lines[0]);
      ScanUnlines(ScanLine(s, lines[0]), lines[1..]);
    }
  }

  lemma CountsOfUnlines(lines: seq<string>)
    requires forall i :: 0 <= i < |lines| ==> '\n' !in lines[i]
    ensures CountsOf(Unlines(lines)) == ScanLines(START, lines).counts
  {
    ScanUnlines(START, lines);
  }

  /** A text that is empty or ends in LF: no line of it runs on into what follows. */
  predicate Ended(text: string) { text == "" || text[|text|-1] == '\n' }

  lemma {:induction false} LinesAppend(a: string, b: string, line: string)
    requires if a == "" then line == "" else Ended(a)
    ensures Lines(a + b, line) == Lines(a, line) + Lines(b, "")
    decreases |a|
  {
    if a == "" {
      assert a + b == b;
    } else {
      assert (a + b)[1..] == a[1..] + b;
      if a[0] == '\n' {
        LinesAppend(a[1..], b, "");
      } else {
        assert a[1..] != "" by { assert a[|a|-1] == '\n'; }
        LinesAppend(a[1..], b, line + [a[0]]);
      }
    }
  }

  function Ahead(s: Scan, counts: Counts): Scan { s.(counts := Plus(counts, s.counts)) }

  lemma LineKeepsLead(s: Scan, counts: Counts, line: string)
    ensures ScanLine(Ahead(s, counts), line) == Ahead(ScanLine(s, line), counts)
  {
  }

  /** Counts made before only add to those made after. */
  lemma {:induction false} LeadIsKept(s: Scan, counts: Counts, lines: seq<string>)
    ensures ScanLines(Ahead(s, counts), lines) == Ahead(ScanLines(s, lines), counts)
    decreases |lines|
  {
    if lines != [] {
      LineKeepsLead(s, counts, lines[0]);
      LeadIsKept(ScanLine(s, lines[0]), counts, lines[1..]);
    }
  }

  lemma HeaderResets(s: Scan, lines: seq<string>)
    requires lines != [] && "diff --git " <= lines[0]
    ensures ScanLines(s, lines).counts == Plus(s.counts, ScanLines(START, lines).counts)
  {
    assert ScanLine(s, lines[0]) == Ahead(START, s.counts) && ScanLine(START, lines[0]) == START;
    LeadIsKept(START, s.counts, lines[1..]);
  }

  lemma {:induction false} FirstLineBegins(text: string, line: string, prefix: string)
    requires prefix <= line + text && '\n' !in prefix && '\r' !in prefix && '\n' !in line && prefix != ""
    ensures Lines(text, line) != [] && prefix <= Lines(text, line)[0]
    decreases |text|
  {
    if text == [] {
      assert line + text == line;
    } else if text[0] == '\n' {
      assert (line + text)[|line|] == '\n';
      assert '\n' in (line + text)[..|prefix|] <==> |line| < |prefix|;
      assert forall i :: 0 <= i < |prefix| ==> prefix[i] == line[i];
    } else {
      assert line + [text[0]] + text[1..] == line + text;
      FirstLineBegins(text[1..], line + [text[0]], prefix);
    }
  }

  /** Appending a diff to one that ends in LF adds its counts. */
  lemma CountsAddUp(a: string, b: string)
    requires Ended(a) && "diff --git " <= b
    ensures CountsOf(a + b) == Plus(CountsOf(a), CountsOf(b))
  {
    LinesAppend(a, b, "");
    assert "" + b == b;
    FirstLineBegins(b, "", "diff --git ");
    ScanAppend(START, Lines(a, ""), Lines(b, ""));
    HeaderResets(ScanLines(START, Lines(a, "")), Lines(b, ""));
  }

  lemma FromStart(lines: seq<string>, counts: Counts)
    requires Adds(lines, counts)
    ensures ScanLines(START, lines).counts == counts
  {
  }

  lemma ScanFiles(files: seq<FileDiff>)
    requires forall i :: 0 <= i < |files| ==> PlainMeta(files[i])
    ensures ScanLines(START, PrintFiles(files)).counts == FileCounts(files)
  {
    FilesAdd(files);
    FromStart(PrintFiles(files), FileCounts(files));
  }

  /** The counts of a printed diff are the added and deleted body lines of its files, summed. */
  lemma PrintedDiffIsCountedRight(files: seq<FileDiff>)
    requires WellFormed(files)
    ensures CountsOf(Unlines(PrintFiles(files))) == FileCounts(files)
  {
    ScanFiles(files);
    CountsOfUnlines(PrintFiles(files));
  }
}
