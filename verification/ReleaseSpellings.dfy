/** Every spelling of a version that normalises, and what else does. */
module ReleaseSpellings {
  import opened Wrappers
  import opened ReleaseVersion

  /** A normal form, a dashed release name with or without its first dot, or a beta written `-bet-alpha`. */
  datatype Style = Normal | Dashed(dot: string) | Garbled(dot: string)

  ghost predicate Fits(v: Version, style: Style) {
    match style
    case Normal => true
    case Dashed(dot) => OptionalDot(dot) && v.pre.Some? && (v.post.Some? ==> v.pre.value.kind == Alpha)
    case Garbled(dot) => OptionalDot(dot) && v.pre.Some? && v.pre.value.kind == Beta && v.post.None?
  }

  function Spelled(v: Version, style: Style): string
    requires !style.Normal? ==> v.pre.Some?
  {
    match style
    case Normal => v.Text()
    case Dashed(dot) =>
      if v.post.None? then v.release + "-" + (v.pre.value.kind.Word() + dot + v.pre.value.number)
      else v.release + "-" + ("alpha" + dot + v.pre.value.number + "." + v.post.value)
    case Garbled(dot) => v.release + "-bet" + "-" + ("alpha" + dot + v.pre.value.number)
  }

  predicate AllSpace(s: string) { forall i :: 0 <= i < |s| ==> IsSpace(s[i]) }

  predicate IsPrefix(s: string) { s == "" || s == "v" || s == "rust-v" }

  // ----- The ends of a version

  /** A text that ends in digits after some other character: both are determined. */
  lemma TrailingNumber(p: string, c: char, n: string, q: string, d: char, m: string)
    requires IsNumber(n) && IsNumber(m) && !IsDigit(c) && !IsDigit(d) && p + [c] + n == q + [d] + m
    ensures p == q && c == d && n == m
  {
    var s := p + [c] + n;
    assert s[|p|] == c && s[|q|] == d;
    assert forall i :: |p| < i < |s| ==> s[i] == n[i - |p| - 1];
    assert forall i :: |q| < i < |s| ==> s[i] == m[i - |q| - 1];
    assert |p| == |q|;
    assert s[..|p|] == p && s[..|q|] == q && s[|p|+1..] == n && s[|q|+1..] == m;
  }

  /** The characters of the dashed word before its last, and that one. */
  function WordInit(kind: PreKind): string { match kind case Alpha => "alph" case Beta => "bet" case Candidate => "r" }

  function WordLast(kind: PreKind): char { match kind case Candidate => 'c' case _ => 'a' }

  lemma Regroup(a: string, b: string, c: char, d: string)
    ensures a + (b + [c] + d) == a + b + [c] + d
  {
  }

  lemma WordSplit(kind: PreKind)
    ensures kind.Word() == WordInit(kind) + [WordLast(kind)]
  {
  }

  lemma MatchEnds(s: string, kind: PreKind, before: string, dot: string, number: string) returns (p: string, c: char)
    requires PreMatch(s, kind, before, dot, number)
    ensures s == p + [c] + number && !IsDigit(c)
    ensures if dot == "" then p == before + "-" + WordInit(kind) && c == WordLast(kind) else c == '.'
  {
    var word := kind.Word();
    if dot == "" {
      p, c := before + "-" + WordInit(kind), WordLast(kind);
      WordSplit(kind);
      assert word + dot == word;
      Regroup(before + "-", WordInit(kind), c, number);
    } else {
      p, c := before + "-" + word, '.';
      assert dot == [c];
      Regroup(before + "-", word, c, number);
    }
  }

  /** A number after any other character than a dot or the last of the word is not taken for a pre-release. */
  lemma OtherEnding(p: string, c: char, n: string, kind: PreKind)
    requires IsNumber(n) && !IsDigit(c) && c != '.' && c != WordLast(kind)
    ensures SubstitutePre(p + [c] + n, kind) == p + [c] + n
  {
    var s := p + [c] + n;
    forall b, d, m ensures !PreMatch(s, kind, b, d, m) {
      if PreMatch(s, kind, b, d, m) {
        var q, e := MatchEnds(s, kind, b, d, m);
        TrailingNumber(p, c, n, q, e, m);
      }
    }
  }

  function LettersInit(kind: PreKind): string { if kind == Candidate then "r" else "" }

  function LettersLast(kind: PreKind): char { match kind case Alpha => 'a' case Beta => 'b' case Candidate => 'c' }

  lemma LettersSplit(b: string, kind: PreKind, n: string)
    ensures b + kind.Letters() + n == b + LettersInit(kind) + [LettersLast(kind)] + n
  {
    assert kind.Letters() == LettersInit(kind) + [LettersLast(kind)];
    assert b + kind.Letters() == b + LettersInit(kind) + [LettersLast(kind)];
  }

  /** Only a version with a post-release has a `t`. */
  lemma PostHasT(v: Version)
    requires v.Valid()
    ensures 't' in v.Text() <==> v.post.Some?
  {
    var pre, post := v.PreText(), v.PostText();
    assert 't' !in v.release && 't' !in pre;
    if v.post.Some? { assert v.Text()[|v.release| + |pre| + 4] == post[4] == 't'; }
  }

  lemma PostSplit(p: string, x: string)
    ensures p + ".post" + x == p + ".pos" + ['t'] + x
  {
    assert ".post" == ".pos" + ['t'];
    assert p + ".post" == p + ".pos" + ['t'];
  }

  lemma TextWithPost(v: Version)
    requires v.post.Some?
    ensures v.Text() == v.release + v.PreText() + ".pos" + ['t'] + v.post.value
  {
    Flatten3(v.release, v.PreText(), ".post", v.post.value);
    PostSplit(v.release + v.PreText(), v.post.value);
  }

  lemma Flatten3(a: string, b: string, c: string, d: string)
    ensures a + (b + (c + d)) == a + b + c + d
  {
  }

  lemma ReadPre(b: string, kind: PreKind, n: string, v: Version)
    requires v.Valid() && v.Text() == b + kind.Letters() + n && IsNumber(n)
    ensures v.post.None? && v.pre == Some(Pre(kind, n)) && v.release == b
  {
    LettersSplit(b, kind, n);
    if v.post.Some? {
      TextWithPost(v);
      TrailingNumber(v.release + v.PreText() + ".pos", 't', v.post.value, b + LettersInit(kind), LettersLast(kind), n);
      assert false;
    }
    assert v.PreText() + "" == v.PreText();
    ReadPreText(b, kind, n, v);
  }

  lemma LettersAreThere(b: string, kind: PreKind, n: string)
    ensures LettersLast(kind) in b + kind.Letters() + n && !IsDigit(LettersLast(kind)) && LettersLast(kind) != '.'
  {
    LettersSplit(b, kind, n);
    assert (b + LettersInit(kind) + [LettersLast(kind)] + n)[|b| + |LettersInit(kind)|] == LettersLast(kind);
  }

  lemma ReadPreText(b: string, kind: PreKind, n: string, v: Version)
    requires v.Valid() && v.release + v.PreText() == b + kind.Letters() + n && IsNumber(n)
    ensures v.pre == Some(Pre(kind, n)) && v.release == b
  {
    LettersSplit(b, kind, n);
    LettersAreThere(b, kind, n);
    assert LettersLast(kind) !in v.release;
    if v.pre.None? { assert false; }
    var k, m := v.pre.value.kind, v.pre.value.number;
    LettersSplit(v.release, k, m);
    assert v.release + v.PreText() == v.release + k.Letters() + m;
    TrailingNumber(v.release + LettersInit(k), LettersLast(k), m, b + LettersInit(kind), LettersLast(kind), n);
    assert v.release == (v.release + LettersInit(k))[..|v.release|] && b == (b + LettersInit(kind))[..|b|];
  }

  lemma ReadHotfix(b: string, a: string, x: string, v: Version)
    requires v.Valid() && v.Text() == b + "a" + a + ".post" + x && IsNumber(a) && IsNumber(x)
    ensures v == Version(b, Some(Pre(Alpha, a)), Some(x))
  {
    var p, q := v.release + v.PreText(), b + "a" + a;
    PostSplit(q, x);
    PostHasT(v);
    assert (q + ".pos" + ['t'] + x)[|q| + 4] == 't';
    TextWithPost(v);
    TrailingNumber(p + ".pos", 't', v.post.value, q + ".pos", 't', x);
    assert p == (p + ".pos")[..|p|] && q == (q + ".pos")[..|q|];
    ReadPreText(b, Alpha, a, v);
  }

  // ----- Each spelling normalises

  lemma DashedSubstituted(v: Version, dot: string)
    requires v.Valid() && Fits(v, Dashed(dot))
    ensures Substituted(Spelled(v, Dashed(dot))) == v.Text()
  {
    if v.post.None? {
      TextOfPre(v);
      SubstitutedPreName(v.release, v.pre.value.kind, dot, v.pre.value.number);
    } else {
      TextOfHotfix(v);
      SubstitutedHotfixName(v.release, dot, v.pre.value.number, v.post.value);
    }
  }

  /** `-alpha` is replaced first, and leaves `-beta` behind. */
  lemma GarbledSubstituted(v: Version, dot: string)
    requires v.Valid() && Fits(v, Garbled(dot))
    ensures Substituted(Spelled(v, Garbled(dot))) == v.Text()
  {
    var r, n := v.release, v.pre.value.number;
    assert Alpha.Word() == "alpha";
    HotfixNeedsTwoNumbers(r + "-bet", Alpha, dot, n);
    PreSubstituted(r + "-bet", Alpha, dot, n);
    assert r + "-bet" + "a" + n == r + "-" + (Beta.Word() + "" + n);
    PreSubstituted(r, Beta, "", n);
    TextOfPre(v);
    assert v.Text() == r + ['b'] + n by { assert Beta.Letters() == ['b']; }
    OtherEnding(r, 'b', n, Candidate);
  }

  lemma CoreSubstituted(v: Version, style: Style)
    requires v.Valid() && Fits(v, style)
    ensures Substituted(Spelled(v, style)) == v.Text()
  {
    match style
    case Normal =>
      TextFacts(v);
      NoDashNoMatch(v.Text());
    case Dashed(dot) => DashedSubstituted(v, dot);
    case Garbled(dot) => GarbledSubstituted(v, dot);
  }

  lemma SpelledEnds(v: Version, style: Style)
    requires v.Valid() && Fits(v, style)
    ensures var s := Spelled(v, style); s != [] && IsDigit(s[0]) && IsDigit(s[|s|-1])
  {
    TextFacts(v);
    var s := Spelled(v, style);
    if !style.Normal? {
      assert s[0] == v.release[0];
      assert s[|s|-1] == if v.post.Some? then v.post.value[|v.post.value|-1]
        else v.pre.value.number[|v.pre.value.number|-1];
    }
  }

  lemma {:induction false} StripLeftBack(left: string, s: string)
    requires AllSpace(left) && s != [] && !IsSpace(s[0])
    ensures StripLeft(left + s) == s
    decreases |left|
  {
    if left == [] {
      assert left + s == s;
    } else {
      assert (left + s)[1..] == left[1..] + s;
      StripLeftBack(left[1..], s);
    }
  }

  lemma {:induction false} StripRightBack(s: string, right: string)
    requires AllSpace(right) && s != [] && !IsSpace(s[|s|-1])
    ensures StripRight(s + right) == s
    decreases |right|
  {
    if right == [] {
      assert s + right == s;
    } else {
      var t := s + right;
      assert t[..|t|-1] == s + right[..|right|-1];
      StripRightBack(s, right[..|right|-1]);
    }
  }

  lemma PrefixRemoved(prefix: string, s: string)
    requires IsPrefix(prefix) && s != [] && IsDigit(s[0])
    ensures WithoutPrefix(prefix + s) == s && !IsSpace((prefix + s)[0])
  {
    var t := prefix + s;
    assert t[|prefix|] == s[0];
    if prefix == "" {
      assert t == s;
    } else if prefix == "v" {
      assert t[0] == 'v' && t[1..] == s;
    } else {
      assert t[..6] == "rust-v" && t[6..] == s;
    }
  }

  lemma CoreFound(core: string, prefix: string, left: string, right: string)
    requires core != [] && IsDigit(core[0]) && IsDigit(core[|core|-1])
    requires IsPrefix(prefix) && AllSpace(left) && AllSpace(right)
    ensures WithoutPrefix(StripRight(StripLeft(left + (prefix + core + right)))) == core
  {
    PrefixRemoved(prefix, core);
    var t := prefix + core;
    assert t[|t|-1] == core[|core|-1] && (t + right)[0] == t[0];
    StripLeftBack(left, t + right);
    StripRightBack(t, right);
  }

  lemma TextIsNormal(v: Version)
    requires v.Valid()
    ensures IsNormal(v.Text())
  {
  }

  lemma NormalizeCore(version: string, core: string)
    requires WithoutPrefix(StripRight(StripLeft(version))) == core && IsNormal(Substituted(core))
    ensures Normalize(version) == Some(Substituted(core))
  {
  }

  /** Every spelling of a valid version, with either prefix or none and spaces around it, normalises to it. */
  lemma SpellingNormalizes(v: Version, style: Style, prefix: string, left: string, right: string)
    requires v.Valid() && Fits(v, style) && IsPrefix(prefix) && AllSpace(left) && AllSpace(right)
    ensures Normalize(left + (prefix + Spelled(v, style) + right)) == Some(v.Text())
  {
    var core := Spelled(v, style);
    SpelledEnds(v, style);
    CoreFound(core, prefix, left, right);
    CoreSubstituted(v, style);
    TextIsNormal(v);
    NormalizeCore(left + (prefix + core + right), core);
  }

  // ----- Nothing else does

  lemma {:induction false} LeftStripped(s: string) returns (left: string)
    ensures AllSpace(left) && s == left + StripLeft(s)
    decreases |s|
  {
    if s != [] && IsSpace(s[0]) {
      var rest := LeftStripped(s[1..]);
      left := [s[0]] + rest;
      assert s == [s[0]] + s[1..];
    } else {
      left := [];
    }
  }

  lemma {:induction false} RightStripped(s: string) returns (right: string)
    ensures AllSpace(right) && s == StripRight(s) + right
    decreases |s|
  {
    if s != [] && IsSpace(s[|s|-1]) {
      var rest := RightStripped(s[..|s|-1]);
      right := rest + [s[|s|-1]];
      assert s == s[..|s|-1] + [s[|s|-1]];
    } else {
      right := [];
    }
  }

  lemma PrefixFound(s: string) returns (prefix: string)
    ensures IsPrefix(prefix) && s == prefix + WithoutPrefix(s)
  {
    prefix := if "rust-v" <= s then "rust-v" else if "v" <= s then "v" else "";
    assert "rust-v" <= s ==> s == s[..6] + s[6..];
    assert "v" <= s ==> s == s[..1] + s[1..];
  }

  lemma HotfixCore(core: string, b: string, d: string, a: string, x: string) returns (v: Version, style: Style)
    requires HotfixMatch(core, b, d, a, x) && IsNormal(Substituted(core))
    ensures v.Valid() && Fits(v, style) && core == Spelled(v, style) && v.Text() == Substituted(core)
  {
    HotfixSubstituted(b, d, a, x);
    var h := b + "a" + a + ".post" + x;
    assert h == b + "a" + a + ".pos" + ['t'] + x by { assert ".post" == ".pos" + ['t']; }
    OtherEnding(b + "a" + a + ".pos", 't', x, Alpha);
    OtherEnding(b + "a" + a + ".pos", 't', x, Beta);
    OtherEnding(b + "a" + a + ".pos", 't', x, Candidate);
    assert Substituted(core) == h;
    v :| v.Valid() && v.Text() == h;
    ReadHotfix(b, a, x, v);
    style := Dashed(d);
  }

  /** The text once the pre-release of one kind has been replaced, the later kinds not matching it. */
  lemma PreCore(core: string, kind: PreKind, b: string, d: string, n: string) returns (v: Version, style: Style)
    requires PreMatch(core, kind, b, d, n) && Substituted(core) == b + kind.Letters() + n && IsNormal(Substituted(core))
    ensures v.Valid() && Fits(v, style) && core == Spelled(v, style) && v.Text() == Substituted(core)
  {
    v :| v.Valid() && v.Text() == Substituted(core);
    ReadPre(b, kind, n, v);
    style := Dashed(d);
  }

  lemma AlphaCore(core: string, b: string, d: string, n: string) returns (v: Version, style: Style)
    requires SubstituteHotfix(core) == core && PreMatch(core, Alpha, b, d, n) && IsNormal(Substituted(core))
    ensures v.Valid() && Fits(v, style) && core == Spelled(v, style) && v.Text() == Substituted(core)
  {
    PreSubstituted(b, Alpha, d, n);
    var s := b + "a" + n;
    assert s == b + ['a'] + n;
    assert SubstitutePre(core, Alpha) == s;
    if m: (string, string, string) :| PreMatch(s, Beta, m.0, m.1, m.2) {
      v, style := GarbledCore(core, b, d, n, m.0, m.1, m.2);
    } else {
      OtherEnding(b, 'a', n, Candidate);
      v, style := PreCore(core, Alpha, b, d, n);
    }
  }

  lemma GarbledCore(core: string, b: string, d: string, n: string, b2: string, d2: string, n2: string)
    returns (v: Version, style: Style)
    requires SubstituteHotfix(core) == core && PreMatch(core, Alpha, b, d, n) && IsNormal(Substituted(core))
    requires SubstitutePre(core, Alpha) == b + ['a'] + n && PreMatch(b + ['a'] + n, Beta, b2, d2, n2)
    ensures v.Valid() && Fits(v, style) && core == Spelled(v, style) && v.Text() == Substituted(core)
  {
    var q, e := MatchEnds(b + ['a'] + n, Beta, b2, d2, n2);
    TrailingNumber(b, 'a', n, q, e, n2);
    assert d2 == "" && b == b2 + "-" + "bet" && n2 == n;
    PreSubstituted(b2, Beta, "", n);
    assert b2 + Beta.Letters() + n == b2 + ['b'] + n;
    OtherEnding(b2, 'b', n, Candidate);
    assert Substituted(core) == b2 + Beta.Letters() + n;
    v :| v.Valid() && v.Text() == Substituted(core);
    ReadPre(b2, Beta, n, v);
    style := Garbled(d);
    assert b2 + "-" + "bet" == b2 + "-bet";
  }

  lemma BetaCore(core: string, b: string, d: string, n: string) returns (v: Version, style: Style)
    requires SubstituteHotfix(core) == core && SubstitutePre(core, Alpha) == core
    requires PreMatch(core, Beta, b, d, n) && IsNormal(Substituted(core))
    ensures v.Valid() && Fits(v, style) && core == Spelled(v, style) && v.Text() == Substituted(core)
  {
    PreSubstituted(b, Beta, d, n);
    assert b + Beta.Letters() + n == b + ['b'] + n;
    OtherEnding(b, 'b', n, Candidate);
    v, style := PreCore(core, Beta, b, d, n);
  }

  lemma LastCore(core: string) returns (v: Version, style: Style)
    requires SubstituteHotfix(core) == core && SubstitutePre(core, Alpha) == core && SubstitutePre(core, Beta) == core
    requires IsNormal(Substituted(core))
    ensures v.Valid() && Fits(v, style) && core == Spelled(v, style) && v.Text() == Substituted(core)
  {
    if m: (string, string, string) :| PreMatch(core, Candidate, m.0, m.1, m.2) {
      PreSubstituted(m.0, Candidate, m.1, m.2);
      v, style := PreCore(core, Candidate, m.0, m.1, m.2);
    } else {
      assert SubstitutePre(core, Candidate) == core;
      v :| v.Valid() && v.Text() == Substituted(core);
      style := Normal;
    }
  }

  lemma CoreIsSpelling(core: string) returns (v: Version, style: Style)
    requires IsNormal(Substituted(core))
    ensures v.Valid() && Fits(v, style) && core == Spelled(v, style) && v.Text() == Substituted(core)
  {
    if m: (string, string, string, string) :| HotfixMatch(core, m.0, m.1, m.2, m.3) {
      v, style := HotfixCore(core, m.0, m.1, m.2, m.3);
    } else {
      assert SubstituteHotfix(core) == core;
      if m: (string, string, string) :| PreMatch(core, Alpha, m.0, m.1, m.2) {
        v, style := AlphaCore(core, m.0, m.1, m.2);
      } else {
        assert SubstitutePre(core, Alpha) == core;
        if m: (string, string, string) :| PreMatch(core, Beta, m.0, m.1, m.2) {
          v, style := BetaCore(core, m.0, m.1, m.2);
        } else {
          assert SubstitutePre(core, Beta) == core;
          v, style := LastCore(core);
        }
      }
    }
  }

  /** Whatever normalises is one of these spellings of its normal form. */
  lemma OnlySpellingsNormalize(version: string)
    returns (v: Version, style: Style, prefix: string, left: string, right: string)
    requires Normalize(version).Some?
    ensures v.Valid() && Fits(v, style) && IsPrefix(prefix) && AllSpace(left) && AllSpace(right)
    ensures version == left + (prefix + Spelled(v, style) + right) && Normalize(version) == Some(v.Text())
  {
    left := LeftStripped(version);
    right := RightStripped(StripLeft(version));
    var stripped := StripRight(StripLeft(version));
    prefix := PrefixFound(stripped);
    v, style := CoreIsSpelling(WithoutPrefix(stripped));
  }

  lemma GarbledText()
    ensures var v := Version("1", Some(Pre(Beta, "5")), None);
      "" + ("" + Spelled(v, Garbled("")) + "") == "1-bet-alpha5" && v.Text() == "1b5"
  {
    assert "alpha" + "" + "5" == "alpha5" && "1" + "-bet" + "-" == "1-bet-";
    assert "1-bet-" + "alpha5" == "1-bet-alpha5";
    assert "b" + "5" + "" == "b5" && "1" + "b5" == "1b5";
  }

  /** The odd one out: a beta nobody would write is accepted as one. */
  lemma GarbledBetaNormalizes()
    ensures Normalize("1-bet-alpha5") == Some("1b5")
  {
    var v := Version("1", Some(Pre(Beta, "5")), None);
    GarbledText();
    SpellingNormalizes(v, Garbled(""), "", "", "");
  }
}
