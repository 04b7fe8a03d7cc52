/** Paths as the app-server host writes them: Windows or POSIX rules, told apart by the text alone. */
module HostPath {

  predicate IsLetter(c: char) { 'a' <= c <= 'z' || 'A' <= c <= 'Z' }

  predicate IsSeparator(c: char, windows: bool) { c == '/' || (windows && c == '\\') }

  /** A drive with a separator, or two leading separators of one kind. */
  predicate IsWindows(path: string) {
    || (|path| >= 3 && IsLetter(path[0]) && path[1] == ':' && IsSeparator(path[2], true))
    || (|path| >= 2 && path[0] == '\\' && path[1] == '\\')
    || (|path| >= 2 && path[0] == '/' && path[1] == '/')
  }

  predicate StartsWithDrive(path: string, c: char) { [c, ':', '\\'] <= path || [c, ':', '/'] <= path }

  /** A path is a Windows path exactly when it begins with a drive and a separator, or with two separators. */
  lemma WindowsIff(path: string)
    ensures IsWindows(path) <==>
      || "\\\\" <= path || "//" <= path
      || exists c :: ('a' <= c <= 'z' || 'A' <= c <= 'Z') && StartsWithDrive(path, c)
  {
    if |path| >= 3 {
      assert StartsWithDrive(path, path[0]) <==> path[1] == ':' && IsSeparator(path[2], true);
    }
    forall c | StartsWithDrive(path, c) ensures |path| >= 3 && path[0] == c {
      assert [c, ':', '\\'][0] == c && [c, ':', '/'][0] == c;
    }
  }

  function Piece(part: string): seq<string> { if part == [] then [] else [part] }

  /** The non-empty pieces between separators, the first of them starting with `part`. */
  function Pieces(path: string, windows: bool, part: string): seq<string> {
    if path == [] then Piece(part)
    else if IsSeparator(path[0], windows) then Piece(part) + Pieces(path[1..], windows, "")
    else Pieces(path[1..], windows, part + [path[0]])
  }

  function Components(path: string): seq<string> {
    Pieces(path, IsWindows(path), "")
  }

  function TrimEnd(path: string, windows: bool): string {
    if path != [] && IsSeparator(path[|path|-1], windows) then TrimEnd(path[..|path|-1], windows) else path
  }

  function Join(path: string, segment: string): string {
    var windows := IsWindows(path);
    TrimEnd(path, windows) + [if windows then '\\' else '/'] + segment
  }

  /** Non-empty and free of separators. */
  predicate OneSegment(s: string, windows: bool) {
    s != [] && forall i :: 0 <= i < |s| ==> !IsSeparator(s[i], windows)
  }

  /** A Windows path of separators only, such as `//`. */
  predicate BareRoot(path: string) {
    IsWindows(path) && forall i :: 0 <= i < |path| ==> IsSeparator(path[i], true)
  }

  // ----- Pieces

  lemma {:induction false} PiecesAcross(a: string, separator: char, b: string, windows: bool, part: string)
    requires IsSeparator(separator, windows)
    ensures Pieces(a + [separator] + b, windows, part) == Pieces(a, windows, part) + Pieces(b, windows, "")
    decreases |a|
  {
    var s := a + [separator] + b;
    if a == [] {
      assert s[0] == separator && s[1..] == b;
    } else {
      assert s[0] == a[0] && s[1..] == a[1..] + [separator] + b;
      if IsSeparator(a[0], windows) {
        PiecesAcross(a[1..], separator, b, windows, "");
      } else {
        PiecesAcross(a[1..], separator, b, windows, part + [a[0]]);
      }
    }
  }

  lemma {:induction false} PiecesOfTrimmed(path: string, windows: bool)
    ensures Pieces(TrimEnd(path, windows), windows, "") == Pieces(path, windows, "")
  {
    if path != [] && IsSeparator(path[|path|-1], windows) {
      var init, last := path[..|path|-1], path[|path|-1];
      PiecesOfTrimmed(init, windows);
      assert path == init + [last] + "";
      PiecesAcross(init, last, "", windows, "");
    }
  }

  lemma {:induction false} PiecesOfSegment(segment: string, windows: bool, part: string)
    requires forall i :: 0 <= i < |segment| ==> !IsSeparator(segment[i], windows)
    ensures Pieces(segment, windows, part) == Piece(part + segment)
    decreases |segment|
  {
    if segment == [] {
      assert part + segment == part;
    } else {
      assert part + [segment[0]] + segment[1..] == part + segment;
      PiecesOfSegment(segment[1..], windows, part + [segment[0]]);
    }
  }

  lemma {:induction false} TrimmedIsPrefix(path: string, windows: bool)
    ensures TrimEnd(path, windows) <= path
    ensures forall i :: |TrimEnd(path, windows)| <= i < |path| ==> IsSeparator(path[i], windows)
    ensures var t := TrimEnd(path, windows); t != [] ==> !IsSeparator(t[|t|-1], windows)
  {
    if path != [] && IsSeparator(path[|path|-1], windows) {
      TrimmedIsPrefix(path[..|path|-1], windows);
    }
  }

  // ----- Joining

  /** Joined by its own rules, a path gets the segment as its last piece. */
  lemma JoinedPieces(path: string, segment: string, windows: bool, separator: char)
    requires OneSegment(segment, windows) && IsSeparator(separator, windows)
    ensures Pieces(TrimEnd(path, windows) + [separator] + segment, windows, "") == Pieces(path, windows, "") + [segment]
  {
    PiecesAcross(TrimEnd(path, windows), separator, segment, windows, "");
    PiecesOfTrimmed(path, windows);
    PiecesOfSegment(segment, windows, "");
    assert "" + segment == segment;
  }

  /** Every component is a segment. */
  lemma {:induction false} PiecesAreSegments(path: string, windows: bool, part: string)
    requires forall i :: 0 <= i < |part| ==> !IsSeparator(part[i], windows)
    ensures forall i :: 0 <= i < |Pieces(path, windows, part)| ==> OneSegment(Pieces(path, windows, part)[i], windows)
    decreases |path|
  {
    if path != [] {
      if IsSeparator(path[0], windows) {
        PiecesAreSegments(path[1..], windows, "");
      } else {
        PiecesAreSegments(path[1..], windows, part + [path[0]]);
      }
    }
  }

  /** Joining keeps a Windows path one, exactly when it is not a bare root or the segment starts with `\\`. */
  lemma WindowsStaysWindows(path: string, segment: string)
    requires IsWindows(path)
    ensures IsWindows(Join(path, segment)) <==> !BareRoot(path) || "\\" <= segment
    ensures BareRoot(path) ==> Join(path, segment) == "\\" + segment
  {
    TrimmedIsPrefix(path, true);
    var t := TrimEnd(path, true);
    var joined := Join(path, segment);
    assert joined == t + ['\\'] + segment;
    if BareRoot(path) {
      assert t == [];
      assert joined == ['\\'] + segment;
      assert segment != [] ==> joined[1] == segment[0];
    } else {
      assert t != [];
      assert forall i :: 0 <= i < |t| ==> joined[i] == path[i];
      assert joined[|t|] == '\\';
      if |t| == 1 { assert false; }
    }
  }

  lemma KindIsInFirstThree(a: string, b: string)
    requires |a| >= 3 && |b| >= 3 && a[0] == b[0] && a[1] == b[1] && a[2] == b[2]
    ensures IsWindows(a) == IsWindows(b)
  {
  }

  predicate BareDrive(path: string) {
    |path| == 2 && path[1] == ':' && IsLetter(path[0])
  }

  /** Joining makes a POSIX path a Windows path, exactly when it is a bare drive, or empty or `/` before a
      segment that starts with `/`. */
  lemma PosixJoin(path: string, segment: string)
    requires !IsWindows(path)
    ensures IsWindows(Join(path, segment)) <==> BareDrive(path) || (TrimEnd(path, false) == "" && "/" <= segment)
  {
    TrimmedIsPrefix(path, false);
    var t := TrimEnd(path, false);
    var joined := t + ['/'] + segment;
    assert joined == Join(path, segment);
    if |t| >= 3 {
      KindIsInFirstThree(joined, path);
    } else if |t| == 2 {
      assert joined[0] == path[0] && joined[1] == path[1] && joined[2] == '/';
      if |path| > 2 {
        assert path[2] == '/';
        KindIsInFirstThree(joined, path);
      }
    } else {
      assert joined[|t|] == '/';
      assert segment != [] ==> joined[|t|+1] == segment[0];
    }
  }

  lemma {:induction false} OnlySeparators(path: string)
    requires forall i :: 0 <= i < |path| ==> IsSeparator(path[i], true)
    ensures Pieces(path, true, "") == []
  {
    if path != [] { OnlySeparators(path[1..]); }
  }

  lemma BareRootJoin(path: string, segment: string)
    requires BareRoot(path) && OneSegment(segment, IsWindows(Join(path, segment)))
    ensures Components(path) == [] && Components(Join(path, segment)) == ["\\" + segment]
    ensures ["\\" + segment][0] != segment
  {
    assert |"\\" + segment| > |segment|;
    WindowsStaysWindows(path, segment);
    OnlySeparators(path);
    PiecesOfSegment("\\" + segment, false, "");
    assert "" + ("\\" + segment) == "\\" + segment;
  }

  lemma OtherJoin(path: string, segment: string)
    requires !BareRoot(path) && OneSegment(segment, IsWindows(Join(path, segment)))
    ensures Components(Join(path, segment)) == Components(path) + [segment]
  {
    var joined := Join(path, segment);
    if IsWindows(path) {
      WindowsStaysWindows(path, segment);
      JoinedPieces(path, segment, true, '\\');
    } else {
      PosixJoin(path, segment);
      if IsWindows(joined) {
        TrimmedIsPrefix(path, false);
        assert joined == path + ['/'] + segment;
        PiecesAcross(path, '/', segment, true, "");
        PiecesOfSegment(segment, true, "");
        PiecesOfSegment(path, true, "");
        PiecesOfSegment(path, false, "");
        assert "" + segment == segment && "" + path == path;
      } else {
        JoinedPieces(path, segment, false, '/');
      }
    }
  }

  /** Joining appends the segment to the components, exactly when the path is not a bare Windows root and the
      segment is one by the rules of the joined path. */
  lemma JoinAppendsComponentIff(path: string, segment: string)
    ensures Components(Join(path, segment)) == Components(path) + [segment]
       <==> !BareRoot(path) && OneSegment(segment, IsWindows(Join(path, segment)))
  {
    var joined := Join(path, segment);
    if Components(joined) == Components(path) + [segment] {
      PiecesAreSegments(joined, IsWindows(joined), "");
      assert Components(joined)[|Components(path)|] == segment;
      if BareRoot(path) {
        BareRootJoin(path, segment);
        assert false;
      }
    } else if !BareRoot(path) && OneSegment(segment, IsWindows(joined)) {
      OtherJoin(path, segment);
    }
  }

  /** A bare root: joining `a` to `//` gives the single component `\a`. */
  lemma BareRootSwallowsSeparator()
    ensures Components(Join("//", "a")) == ["\\a"] && Components("//") + ["a"] == ["a"]
  {
    assert OneSegment("a", true) && OneSegment("a", false) && BareRoot("//");
    BareRootJoin("//", "a");
    assert "\\" + "a" == "\\a";
  }

  /** A bare drive: the segment `a\b` is one by the rules of `C:`, but two by those of the joined path. */
  lemma BareDriveSplitsSegment()
    ensures OneSegment("a\\b", IsWindows("C:")) && Components(Join("C:", "a\\b")) != Components("C:") + ["a\\b"]
  {
    PosixJoin("C:", "a\\b");
    JoinAppendsComponentIff("C:", "a\\b");
    assert IsSeparator("a\\b"[1], true);
  }

  // ----- Many joins

  function JoinAll(path: string, segments: seq<string>): string
    decreases |segments|
  {
    if segments == [] then path else JoinAll(Join(path, segments[0]), segments[1..])
  }

  lemma {:induction false} JoinAllSnoc(path: string, segments: seq<string>, last: string)
    ensures JoinAll(path, segments + [last]) == Join(JoinAll(path, segments), last)
    decreases |segments|
  {
    var all := segments + [last];
    if segments == [] {
      assert all[0] == last && all[1..] == [];
    } else {
      assert all[0] == segments[0] && all[1..] == segments[1..] + [last];
      JoinAllSnoc(Join(path, segments[0]), segments[1..], last);
    }
  }

  /** A path that ends in a segment: further segments change neither its rules nor that. */
  ghost predicate Settled(path: string, windows: bool) {
    && IsWindows(path) == windows && path != [] && !IsSeparator(path[|path|-1], windows)
    && !BareDrive(path) && !BareRoot(path)
  }

  lemma JoinSettles(path: string, segment: string)
    requires OneSegment(segment, IsWindows(Join(path, segment)))
    ensures Settled(Join(path, segment), IsWindows(Join(path, segment)))
  {
    var joined := Join(path, segment);
    assert joined[|joined|-1] == segment[|segment|-1];
    var t := TrimEnd(path, IsWindows(path));
    assert joined[|t|] == '/' || joined[|t|] == '\\';
  }

  lemma StaysSettled(path: string, segment: string, windows: bool)
    requires Settled(path, windows) && OneSegment(segment, windows)
    ensures Settled(Join(path, segment), windows)
  {
    if windows { WindowsStaysWindows(path, segment); } else { PosixJoin(path, segment); }
    JoinSettles(path, segment);
  }

  ghost predicate AllSegments(segments: seq<string>, windows: bool) {
    forall i :: 0 <= i < |segments| ==> OneSegment(segments[i], windows)
  }

  lemma {:induction false} SettledJoinAll(path: string, segments: seq<string>, windows: bool)
    requires Settled(path, windows) && AllSegments(segments, windows)
    ensures Components(JoinAll(path, segments)) == Components(path) + segments
    ensures Settled(JoinAll(path, segments), windows)
    decreases |segments|
  {
    if segments != [] {
      StaysSettled(path, segments[0], windows);
      JoinAppendsComponentIff(path, segments[0]);
      SettledJoinAll(Join(path, segments[0]), segments[1..], windows);
      assert segments == [segments[0]] + segments[1..];
    }
  }

  /** What makes a sequence of joins append its segments: each is one by the rules of the first joined path. */
  ghost predicate Joinable(path: string, segments: seq<string>) {
    segments != [] ==> !BareRoot(path) && AllSegments(segments, IsWindows(Join(path, segments[0])))
  }

  lemma JoinsOn(path: string, first: string, rest: seq<string>, windows: bool)
    requires windows == IsWindows(Join(path, first)) && !BareRoot(path)
    requires OneSegment(first, windows) && AllSegments(rest, windows)
    ensures Components(JoinAll(Join(path, first), rest)) == Components(path) + ([first] + rest)
    ensures Settled(JoinAll(Join(path, first), rest), windows)
  {
    JoinAppendsComponentIff(path, first);
    JoinSettles(path, first);
    SettledJoinAll(Join(path, first), rest, windows);
    assert Components(path) + [first] + rest == Components(path) + ([first] + rest);
  }

  lemma JoinableJoins(path: string, segments: seq<string>)
    requires Joinable(path, segments)
    ensures Components(JoinAll(path, segments)) == Components(path) + segments
    ensures segments != [] ==> Settled(JoinAll(path, segments), IsWindows(Join(path, segments[0])))
  {
    if segments != [] {
      var windows := IsWindows(Join(path, segments[0]));
      assert OneSegment(segments[0], windows);
      JoinsOn(path, segments[0], segments[1..], windows);
      assert segments == [segments[0]] + segments[1..];
    }
  }

  /** Taking the last join back: if all segments were appended, so were all but the last. */
  lemma LastJoin(path: string, before: seq<string>, last: string)
    requires Components(Join(path, last)) == before + [last]
    ensures !BareRoot(path) && OneSegment(last, IsWindows(Join(path, last))) && Components(path) == before
  {
    var joined := Join(path, last);
    PiecesAreSegments(joined, IsWindows(joined), "");
    assert (before + [last])[|before|] == last;
    if BareRoot(path) {
      BareRootJoin(path, last);
      assert false;
    }
    OtherJoin(path, last);
    assert before == (before + [last])[..|before|] == (Components(path) + [last])[..|Components(path)|];
  }

  lemma SettledKeepsRules(path: string, segment: string, windows: bool)
    requires Settled(path, windows)
    ensures IsWindows(Join(path, segment)) == windows
  {
    if windows { WindowsStaysWindows(path, segment); } else { PosixJoin(path, segment); }
  }

  /** Any sequence of joins appends its segments, exactly when there are none, or the path is no bare root
      and each of them is a segment by the rules of the first joined path. */
  lemma {:induction false} JoinAllAppendsIff(path: string, segments: seq<string>)
    ensures Components(JoinAll(path, segments)) == Components(path) + segments <==> Joinable(path, segments)
    decreases |segments|
  {
    if Joinable(path, segments) {
      JoinableJoins(path, segments);
    } else if Components(JoinAll(path, segments)) == Components(path) + segments {
      AppendedIsJoinable(path, segments);
    }
  }

  lemma {:induction false} AppendedIsJoinable(path: string, segments: seq<string>)
    requires Components(JoinAll(path, segments)) == Components(path) + segments
    ensures Joinable(path, segments)
    decreases |segments|
  {
    if segments != [] {
      var init, last := segments[..|segments|-1], segments[|segments|-1];
      assert segments == init + [last];
      assert Components(path) + segments == Components(path) + init + [last];
      JoinAllSnoc(path, init, last);
      LastJoin(JoinAll(path, init), Components(path) + init, last);
      AppendedIsJoinable(path, init);
      JoinableJoins(path, init);
      if init != [] {
        var windows := IsWindows(Join(path, init[0]));
        SettledKeepsRules(JoinAll(path, init), last, windows);
        assert segments[0] == init[0];
        forall i | 0 <= i < |segments| ensures OneSegment(segments[i], windows) {
          assert i < |init| ==> segments[i] == init[i];
        }
      }
    }
  }
}
