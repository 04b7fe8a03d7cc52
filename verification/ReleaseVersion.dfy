/** Codex versions: PEP 440 normal forms and release tags.

Each regular expression is a predicate on strings. The substitution patterns end in `$` and their
text after the dash holds no further dash, so a string has at most one match.
*/
module ReleaseVersion {
  import opened Wrappers

  // ----- Characters and patterns

  predicate IsDigit(c: char) { '0' <= c <= '9' }

  /** What Python's `str.strip` removes. */
  predicate IsSpace(c: char) {
    || '\t' <= c <= '\r' || '\U{1C}' <= c <= ' ' || c == '\U{85}' || c == '\U{A0}' || c == '\U{1680}'
    || '\U{2000}' <= c <= '\U{200A}' || c == '\U{2028}' || c == '\U{2029}' || c == '\U{202F}' || c == '\U{205F}'
      || c == '\U{3000}'
  }

  /** `[0-9]+` */
  predicate IsNumber(s: string) {
    s != [] && forall i :: 0 <= i < |s| ==> IsDigit(s[i])
  }

  /** `[0-9]+(\.[0-9]+)*` */
  predicate IsRelease(s: string) {
    && s != [] && IsDigit(s[0]) && IsDigit(s[|s|-1])
    && (forall i :: 0 <= i < |s| ==> IsDigit(s[i]) || s[i] == '.')
    && (forall i :: 0 < i < |s| ==> IsDigit(s[i-1]) || IsDigit(s[i]))
  }

  datatype PreKind = Alpha | Beta | Candidate
  {
    function Letters(): string { match this case Alpha => "a" case Beta => "b" case Candidate => "rc" }

    function Word(): string { match this case Alpha => "alpha" case Beta => "beta" case Candidate => "rc" }
  }

  datatype Pre = Pre(kind: PreKind, number: string)

  /** A PEP 440 version as this module knows it. */
  datatype Version = Version(release: string, pre: Option<Pre>, post: Option<string>)
  {
    ghost predicate Valid() {
      IsRelease(release) && (pre.Some? ==> IsNumber(pre.value.number)) && (post.Some? ==> IsNumber(post.value))
    }

    function PreText(): string { if pre.Some? then pre.value.kind.Letters() + pre.value.number else "" }

    function PostText(): string { if post.Some? then ".post" + post.value else "" }

    function Text(): string { release + (PreText() + PostText()) }
  }

  /** `[0-9]+(\.[0-9]+)*((a|b|rc)[0-9]+)?(\.post[0-9]+)?` */
  ghost predicate IsNormal(s: string) {
    exists v: Version :: v.Valid() && v.Text() == s
  }

  // ----- Normalising

  function StripLeft(s: string): string { if s != [] && IsSpace(s[0]) then StripLeft(s[1..]) else s }

  function StripRight(s: string): string { if s != [] && IsSpace(s[|s|-1]) then StripRight(s[..|s|-1]) else s }

  function WithoutPrefix(s: string): string {
    if "rust-v" <= s then s[6..] else if "v" <= s then s[1..] else s
  }

  predicate OptionalDot(s: string) { s == "" || s == "." }

  ghost predicate HotfixMatch(s: string, before: string, dot: string, alpha: string, hotfix: string) {
    OptionalDot(dot) && IsNumber(alpha) && IsNumber(hotfix)
      && s == before + "-" + ("alpha" + dot + alpha + "." + hotfix)
  }

  /** `-alpha\.?([0-9]+)\.([0-9]+)$` becomes `a\1.post\2`. */
  ghost function SubstituteHotfix(s: string): string {
    if m: (string, string, string, string) :| HotfixMatch(s, m.0, m.1, m.2, m.3) then m.0 + "a" + m.2 + ".post" + m.3
      else s
  }

  ghost predicate PreMatch(s: string, kind: PreKind, before: string, dot: string, number: string) {
    OptionalDot(dot) && IsNumber(number) && s == before + "-" + (kind.Word() + dot + number)
  }

  /** `-alpha\.?([0-9]+)$` becomes `a\1`, and likewise for beta and rc. */
  ghost function SubstitutePre(s: string, kind: PreKind): string {
    if m: (string, string, string) :| PreMatch(s, kind, m.0, m.1, m.2) then m.0 + kind.Letters() + m.2 else s
  }

  ghost function Substituted(s: string): string {
    SubstitutePre(SubstitutePre(SubstitutePre(SubstituteHotfix(s), Alpha), Beta), Candidate)
  }

  /** The normal form of a version, or `None` where the source raises an error. */
  ghost function Normalize(version: string): Option<string> {
    var s := Substituted(WithoutPrefix(StripRight(StripLeft(version))));
    if IsNormal(s) then Some(s) else None
  }

  // ----- Release names

  /** The Codex release version of a normal form. */
  ghost function ReleaseName(normal: string): string {
    if m: (string, string, string) :|
      IsRelease(m.0) && IsNumber(m.1) && IsNumber(m.2) && normal == m.0 + ("a" + m.1 + ".post" + m.2)
      then m.0 + "-" + ("alpha." + m.1 + "." + m.2)
    else if m: (string, PreKind, string) :| IsRelease(m.0) && IsNumber(m.2) && normal == m.0 + (m.1.Letters() + m.2)
      then m.0 + "-" + (m.1.Word() + "." + m.2)
    else normal
  }

  ghost function ReleaseTag(version: string): Option<string> {
    var normal := Normalize(version);
    if normal.None? then None else Some("rust-v" + ReleaseName(normal.value))
  }

  /** `[0-9]+\.[0-9]+\.[0-9]+(a[0-9]+(\.post[0-9]+)?)?` */
  ghost predicate IsRuntimeVersion(s: string) {
    exists v: Version ::
      && v.Valid() && v.Text() == s && ThreeParts(v.release)
      && (v.pre.Some? ==> v.pre.value.kind == Alpha) && (v.post.Some? ==> v.pre.Some?)
  }

  ghost predicate ThreeParts(release: string) {
    exists a: string, b: string, c: string :: IsNumber(a) && IsNumber(b) && IsNumber(c)
      && release == a + "." + b + "." + c
  }

  /** The release tag of an accepted Python runtime version. */
  ghost function ResolveRuntimeRelease(version: string): Option<string> {
    if IsRuntimeVersion(version) then ReleaseTag(version) else None
  }

  // ----- Facts about the text of versions

  predicate NoDash(s: string) { '-' !in s }

  lemma TextFacts(v: Version)
    requires v.Valid()
    ensures NoDash(v.Text()) && v.Text() != []
    ensures IsDigit(v.Text()[0]) && IsDigit(v.Text()[|v.Text()|-1])
  {
    var pre, post := v.PreText(), v.PostText();
    assert NoDash(v.release) && NoDash(pre) && NoDash(post);
    assert pre != [] ==> IsDigit(pre[|pre|-1]);
    assert post != [] ==> IsDigit(post[|post|-1]);
    var t := v.Text();
    assert t[0] == v.release[0];
    assert t[|t|-1] == (if post != [] then post[|post|-1] else if pre != [] then pre[|pre|-1]
      else v.release[|v.release|-1]);
  }

  lemma LastDashUnique(a: string, t: string, b: string, u: string)
    requires a + "-" + t == b + "-" + u && NoDash(t) && NoDash(u)
    ensures a == b && t == u
  {
    var s := a + "-" + t;
    assert s[|a|] == '-' && s[|b|] == '-';
    assert forall i :: |a| < i < |s| ==> s[i] == t[i - |a| - 1];
    assert forall i :: |b| < i < |s| ==> s[i] == u[i - |b| - 1];
    assert |a| == |b|;
    assert s[..|a|] == a && s[..|b|] == b && s[|a|+1..] == t && s[|b|+1..] == u;
  }

  lemma NoDashNoMatch(s: string)
    requires NoDash(s)
    ensures Substituted(s) == s
  {
    forall before: string, t: string ensures s != before + "-" + t {
      assert (before + "-" + t)[|before|] == '-';
    }
    assert SubstituteHotfix(s) == s;
    assert SubstitutePre(s, Alpha) == s && SubstitutePre(s, Beta) == s && SubstitutePre(s, Candidate) == s;
  }

  lemma SameDot(d: string, x: string, e: string, y: string)
    requires OptionalDot(d) && OptionalDot(e) && x != [] && IsDigit(x[0]) && y != [] && IsDigit(y[0]) && d + x == e + y
    ensures d == e && x == y
  {
    assert (d + x)[0] == (if d == "." then '.' else x[0]) && (e + y)[0] == (if e == "." then '.' else y[0]);
    assert (d + x)[|d|..] == x && (e + y)[|e|..] == y;
  }

  lemma WordTail(kind: PreKind, dot: string, number: string)
    requires OptionalDot(dot) && IsNumber(number)
    ensures NoDash(kind.Word() + dot + number)
  {
    assert NoDash(kind.Word()) && NoDash(dot) && NoDash(number);
  }

  lemma PreSubstituted(release: string, kind: PreKind, dot: string, number: string)
    requires IsNumber(number) && OptionalDot(dot)
    ensures SubstitutePre(release + "-" + (kind.Word() + dot + number), kind) == release + kind.Letters() + number
  {
    var s := release + "-" + (kind.Word() + dot + number);
    WordTail(kind, dot, number);
    var hit := (release, dot, number);
    assert PreMatch(s, kind, hit.0, hit.1, hit.2);
    forall before, d, n | PreMatch(s, kind, before, d, n) ensures before == release && n == number {
      WordTail(kind, d, n);
      LastDashUnique(before, kind.Word() + d + n, release, kind.Word() + dot + number);
      AfterDash(kind.Word(), d, n, dot, number);
      SameDot(d, n, dot, number);
    }
  }

  lemma SplitAtDot(a: string, t: string, b: string, u: string)
    requires IsNumber(a) && IsNumber(b) && a + "." + t == b + "." + u
    ensures a == b && t == u
  {
    var s := a + "." + t;
    assert s[|a|] == '.' && s[|b|] == '.';
    assert forall i :: 0 <= i < |a| ==> s[i] == a[i];
    assert forall i :: 0 <= i < |b| ==> s[i] == b[i];
    assert |a| == |b|;
    assert s[..|a|] == a && s[..|b|] == b && s[|a|+1..] == t && s[|b|+1..] == u;
  }

  lemma AfterDash(word: string, d: string, x: string, e: string, y: string)
    requires word + d + x == word + e + y
    ensures d + x == e + y
  {
    assert word + d + x == word + (d + x) && word + e + y == word + (e + y);
    assert (word + (d + x))[|word|..] == d + x && (word + (e + y))[|word|..] == e + y;
  }

  lemma HotfixTail(dot: string, alpha: string, hotfix: string)
    requires OptionalDot(dot) && IsNumber(alpha) && IsNumber(hotfix)
    ensures NoDash("alpha" + dot + alpha + "." + hotfix)
  {
    assert NoDash("alpha") && NoDash(dot) && NoDash(alpha) && NoDash(".") && NoDash(hotfix);
  }

  lemma HotfixSubstituted(release: string, dot: string, alpha: string, hotfix: string)
    requires IsNumber(alpha) && IsNumber(hotfix) && OptionalDot(dot)
    ensures SubstituteHotfix(release + "-" + ("alpha" + dot + alpha + "." + hotfix))
      == release + "a" + alpha + ".post" + hotfix
  {
    var s := release + "-" + ("alpha" + dot + alpha + "." + hotfix);
    var hit := (release, dot, alpha, hotfix);
    assert HotfixMatch(s, hit.0, hit.1, hit.2, hit.3);
    forall b, d, a, h | HotfixMatch(s, b, d, a, h) ensures b == release && a == alpha && h == hotfix {
      HotfixTail(d, a, h);
      HotfixTail(dot, alpha, hotfix);
      LastDashUnique(b, "alpha" + d + a + "." + h, release, "alpha" + dot + alpha + "." + hotfix);
      assert "alpha" + d + (a + "." + h) == "alpha" + d + a + "." + h;
      assert "alpha" + dot + (alpha + "." + hotfix) == "alpha" + dot + alpha + "." + hotfix;
      AfterDash("alpha", d, a + "." + h, dot, alpha + "." + hotfix);
      assert (a + "." + h)[0] == a[0] && (alpha + "." + hotfix)[0] == alpha[0];
      SameDot(d, a + "." + h, dot, alpha + "." + hotfix);
      SplitAtDot(a, h, alpha, hotfix);
    }
  }

  lemma HotfixNeedsTwoNumbers(release: string, kind: PreKind, dot: string, number: string)
    requires IsNumber(number) && OptionalDot(dot)
    ensures var s := release + "-" + (kind.Word() + dot + number); SubstituteHotfix(s) == s
  {
    var s := release + "-" + (kind.Word() + dot + number);
    WordTail(kind, dot, number);
    forall b, d, a, h ensures !HotfixMatch(s, b, d, a, h) {
      if HotfixMatch(s, b, d, a, h) {
        HotfixTail(d, a, h);
        LastDashUnique(b, "alpha" + d + a + "." + h, release, kind.Word() + dot + number);
        assert ("alpha" + d + a + "." + h)[0] == 'a' && (kind.Word() + dot + number)[0] == kind.Word()[0];
        assert "alpha" + d + (a + "." + h) == "alpha" + d + a + "." + h;
        AfterDash("alpha", d, a + "." + h, dot, number);
        assert (a + "." + h)[0] == a[0] && (a + "." + h)[|a|] == '.';
        SameDot(d, a + "." + h, dot, number);
      }
    }
  }

  lemma OtherKindUntouched(release: string, kind: PreKind, other: PreKind, dot: string, number: string)
    requires IsNumber(number) && other != kind && OptionalDot(dot)
    ensures var s := release + "-" + (kind.Word() + dot + number); SubstitutePre(s, other) == s
  {
    var s := release + "-" + (kind.Word() + dot + number);
    WordTail(kind, dot, number);
    forall b, d, n ensures !PreMatch(s, other, b, d, n) {
      if PreMatch(s, other, b, d, n) {
        WordTail(other, d, n);
        assert (other.Word() + d + n)[0] == other.Word()[0] && (kind.Word() + dot + number)[0] == kind.Word()[0];
        LastDashUnique(b, other.Word() + d + n, release, kind.Word() + dot + number);
      }
    }
  }

  // ----- Reading a normal form is unambiguous

  /** What can follow the release part: nothing, a pre-release, or a post-release. */
  predicate IsTail(t: string) {
    t == [] || t[0] == 'a' || t[0] == 'b' || t[0] == 'r' || (|t| > 1 && t[0] == '.' && t[1] == 'p')
  }

  lemma ReleaseIsLongest(r: string, t: string, q: string, u: string)
    requires IsRelease(r) && IsRelease(q) && IsTail(t) && r + t == q + u
    ensures |q| <= |r|
  {
    var s := r + t;
    assert forall i :: 0 <= i < |q| ==> s[i] == q[i];
    assert t != [] ==> s[|r|] == t[0];
    assert |t| > 1 ==> s[|r|+1] == t[1];
  }

  lemma SplitRelease(r: string, t: string, q: string, u: string)
    requires IsRelease(r) && IsRelease(q) && IsTail(t) && IsTail(u) && r + t == q + u
    ensures r == q && t == u
  {
    ReleaseIsLongest(r, t, q, u);
    ReleaseIsLongest(q, u, r, t);
    assert (r + t)[..|r|] == r && (q + u)[..|q|] == q && (r + t)[|r|..] == t && (q + u)[|q|..] == u;
  }

  lemma TailOf(v: Version)
    requires v.Valid()
    ensures IsTail(v.PreText() + v.PostText())
    ensures v.pre.Some? ==> (v.PreText() + v.PostText())[0] == v.pre.value.kind.Letters()[0]
    ensures v.pre.None? ==> v.PreText() + v.PostText() == v.PostText()
  {
    if v.pre.Some? {
      assert (v.PreText() + v.PostText())[0] == v.pre.value.kind.Letters()[0];
    } else {
      assert "" + v.PostText() == v.PostText();
    }
  }

  lemma HotfixForm(release: string, alpha: string, hotfix: string)
    requires IsRelease(release) && IsNumber(alpha) && IsNumber(hotfix)
    ensures ReleaseName(release + ("a" + alpha + ".post" + hotfix)) == release + "-" + ("alpha." + alpha + "." + hotfix)
  {
    var normal := release + ("a" + alpha + ".post" + hotfix);
    var hit := (release, alpha, hotfix);
    assert IsRelease(hit.0) && IsNumber(hit.1) && IsNumber(hit.2) && normal == hit.0 + ("a" + hit.1 + ".post" + hit.2);
    forall m: (string, string, string) |
      IsRelease(m.0) && IsNumber(m.1) && IsNumber(m.2) && normal == m.0 + ("a" + m.1 + ".post" + m.2)
      ensures m == hit
    {
      SplitRelease(release, "a" + alpha + ".post" + hotfix, m.0, "a" + m.1 + ".post" + m.2);
      assert "a" + alpha + ".post" + hotfix == "a" + (alpha + "." + ("post" + hotfix));
      assert "a" + m.1 + ".post" + m.2 == "a" + (m.1 + "." + ("post" + m.2));
      assert ("a" + (alpha + "." + ("post" + hotfix)))[1..] == alpha + "." + ("post" + hotfix);
      assert ("a" + (m.1 + "." + ("post" + m.2)))[1..] == m.1 + "." + ("post" + m.2);
      SplitAtDot(alpha, "post" + hotfix, m.1, "post" + m.2);
      assert ("post" + hotfix)[4..] == hotfix && ("post" + m.2)[4..] == m.2;
    }
  }

  predicate NoDot(s: string) { '.' !in s }

  lemma NotHotfixForm(normal: string, release: string, tail: string)
    requires IsRelease(release) && IsTail(tail) && normal == release + tail && (NoDot(tail) || tail[0] != 'a')
    ensures !exists m: (string, string, string) ::
      IsRelease(m.0) && IsNumber(m.1) && IsNumber(m.2) && normal == m.0 + ("a" + m.1 + ".post" + m.2)
  {
    forall m: (string, string, string) |
      IsRelease(m.0) && IsNumber(m.1) && IsNumber(m.2) && normal == m.0 + ("a" + m.1 + ".post" + m.2)
      ensures false
    {
      assert ("a" + m.1 + ".post" + m.2)[|m.1| + 1] == '.';
      SplitRelease(release, tail, m.0, "a" + m.1 + ".post" + m.2);
    }
  }

  lemma PreForm(release: string, kind: PreKind, number: string)
    requires IsRelease(release) && IsNumber(number)
    ensures ReleaseName(release + (kind.Letters() + number)) == release + "-" + (kind.Word() + "." + number)
  {
    var tail := kind.Letters() + number;
    var normal := release + tail;
    NotHotfixForm(normal, release, tail);
    var hit := (release, kind, number);
    assert IsRelease(hit.0) && IsNumber(hit.2) && normal == hit.0 + (hit.1.Letters() + hit.2);
    forall m: (string, PreKind, string) | IsRelease(m.0) && IsNumber(m.2) && normal == m.0 + (m.1.Letters() + m.2)
      ensures m == hit
    {
      SplitRelease(release, tail, m.0, m.1.Letters() + m.2);
      assert tail[0] == kind.Letters()[0] && (m.1.Letters() + m.2)[0] == m.1.Letters()[0];
      assert tail[|kind.Letters()|..] == number && (m.1.Letters() + m.2)[|m.1.Letters()|..] == m.2;
    }
  }

  lemma PlainForm(normal: string, release: string, tail: string)
    requires IsRelease(release) && IsTail(tail) && normal == release + tail
    requires tail == [] || tail[0] == '.' || (tail[0] != 'a' && '.' in tail)
    ensures ReleaseName(normal) == normal
  {
    NotHotfixForm(normal, release, tail);
    forall m: (string, PreKind, string) | IsRelease(m.0) && IsNumber(m.2)
      && normal == m.0 + (m.1.Letters() + m.2) ensures false {
      SplitRelease(release, tail, m.0, m.1.Letters() + m.2);
      assert tail[0] == m.1.Letters()[0];
      assert NoDot(m.1.Letters()) && NoDot(m.2);
    }
  }

  /** What the release name of each normal form is. */
  lemma ReleaseNameOf(v: Version)
    requires v.Valid()
    ensures ReleaseName(v.Text()) ==
      if v.pre.Some? && v.post.None? then v.release + "-" + (v.pre.value.kind.Word() + "." + v.pre.value.number)
      else if v.pre.Some? && v.pre.value.kind == Alpha
        then v.release + "-" + ("alpha." + v.pre.value.number + "." + v.post.value)
      else v.Text()
  {
    var tail := v.PreText() + v.PostText();
    TailOf(v);
    if v.pre.Some? && v.post.None? {
      assert tail == v.pre.value.kind.Letters() + v.pre.value.number;
      PreForm(v.release, v.pre.value.kind, v.pre.value.number);
    } else if v.pre.Some? && v.pre.value.kind == Alpha {
      assert tail == "a" + v.pre.value.number + ".post" + v.post.value;
      HotfixForm(v.release, v.pre.value.number, v.post.value);
    } else {
      if v.pre.Some? { assert tail[|v.PreText()|] == '.'; }
      PlainForm(v.Text(), v.release, tail);
    }
  }

  // ----- Normal forms are stable, and tags lead back to them

  lemma {:induction false} NothingToStrip(s: string)
    requires s != [] ==> !IsSpace(s[0]) && !IsSpace(s[|s|-1])
    ensures StripRight(StripLeft(s)) == s
  {
  }

  /** Normalising a normal form changes nothing. */
  lemma NormalizeIsIdempotent(version: string)
    requires Normalize(version).Some?
    ensures Normalize(Normalize(version).value) == Normalize(version)
  {
    NormalFormsAreStable(Normalize(version).value);
  }

  lemma NormalFormsAreStable(s: string)
    requires IsNormal(s)
    ensures Normalize(s) == Some(s)
  {
    var v: Version :| v.Valid() && v.Text() == s;
    TextFacts(v);
    NothingToStrip(s);
    assert WithoutPrefix(s) == s;
    NoDashNoMatch(s);
  }

  lemma NormalizeTagged(name: string)
    requires name != [] && !IsSpace(name[|name|-1])
    ensures Normalize("rust-v" + name) == if IsNormal(Substituted(name)) then Some(Substituted(name)) else None
  {
    var tag := "rust-v" + name;
    assert tag[|tag|-1] == name[|name|-1] && tag[0] == 'r';
    NothingToStrip(tag);
    assert tag[6..] == name;
  }

  lemma SubstitutedPreName(release: string, kind: PreKind, dot: string, number: string)
    requires IsRelease(release) && IsNumber(number) && OptionalDot(dot)
    ensures Substituted(release + "-" + (kind.Word() + dot + number)) == release + kind.Letters() + number
  {
    var s, text := release + "-" + (kind.Word() + dot + number), release + kind.Letters() + number;
    assert NoDash(text) by { assert NoDash(release) && NoDash(kind.Letters()) && NoDash(number); }
    UntouchedWithoutDash(text);
    HotfixNeedsTwoNumbers(release, kind, dot, number);
    PreSubstituted(release, kind, dot, number);
    if kind != Alpha { OtherKindUntouched(release, kind, Alpha, dot, number); }
    if kind == Candidate { OtherKindUntouched(release, kind, Beta, dot, number); }
  }

  lemma SubstitutedHotfixName(release: string, dot: string, alpha: string, hotfix: string)
    requires IsRelease(release) && IsNumber(alpha) && IsNumber(hotfix) && OptionalDot(dot)
    ensures Substituted(release + "-" + ("alpha" + dot + alpha + "." + hotfix))
      == release + "a" + alpha + ".post" + hotfix
  {
    var text := release + "a" + alpha + ".post" + hotfix;
    assert NoDash(text) by { assert NoDash(release) && NoDash("a") && NoDash(alpha) && NoDash(".post")
      && NoDash(hotfix); }
    UntouchedWithoutDash(text);
    HotfixSubstituted(release, dot, alpha, hotfix);
  }

  lemma UntouchedWithoutDash(s: string)
    requires NoDash(s)
    ensures SubstitutePre(s, Alpha) == s && SubstitutePre(s, Beta) == s && SubstitutePre(s, Candidate) == s
  {
    forall before: string, t: string ensures s != before + "-" + t {
      assert (before + "-" + t)[|before|] == '-';
    }
  }

  ghost predicate LeadsBack(name: string, text: string) {
    name != [] && IsDigit(name[|name|-1]) && Substituted(name) == text
  }

  lemma TextOfPre(v: Version)
    requires v.Valid() && v.pre.Some? && v.post.None?
    ensures v.Text() == v.release + v.pre.value.kind.Letters() + v.pre.value.number
  {
    assert v.PreText() + v.PostText() == v.pre.value.kind.Letters() + v.pre.value.number;
  }

  lemma EndsInDigit(before: string, word: string, number: string)
    requires IsNumber(number)
    ensures var s := before + "-" + (word + "." + number); IsDigit(s[|s|-1])
  {
  }

  lemma PreNameLeadsBack(v: Version)
    requires v.Valid() && v.pre.Some? && v.post.None?
    ensures LeadsBack(v.release + "-" + (v.pre.value.kind.Word() + "." + v.pre.value.number), v.Text())
  {
    TextOfPre(v);
    var word := v.pre.value.kind.Word();
    EndsInDigit(v.release, word, v.pre.value.number);
    SubstitutedPreName(v.release, v.pre.value.kind, ".", v.pre.value.number);
  }

  lemma TextOfHotfix(v: Version)
    requires v.Valid() && v.pre.Some? && v.pre.value.kind == Alpha && v.post.Some?
    ensures v.Text() == v.release + "a" + v.pre.value.number + ".post" + v.post.value
  {
    Flatten(v.release, "a", v.pre.value.number, ".post", v.post.value);
  }

  lemma Flatten(a: string, b: string, c: string, d: string, e: string)
    ensures a + ((b + c) + (d + e)) == a + b + c + d + e
  {
  }

  lemma HotfixNameLeadsBack(v: Version)
    requires v.Valid() && v.pre.Some? && v.pre.value.kind == Alpha && v.post.Some?
    ensures LeadsBack(v.release + "-" + ("alpha." + v.pre.value.number + "." + v.post.value), v.Text())
  {
    TextOfHotfix(v);
    var word := "alpha." + v.pre.value.number;
    EndsInDigit(v.release, word, v.post.value);
    SubstitutedHotfixName(v.release, ".", v.pre.value.number, v.post.value);
    assert "alpha" + "." == "alpha.";
  }

  lemma NameLeadsBack(v: Version, name: string)
    requires v.Valid() && name == ReleaseName(v.Text())
    ensures LeadsBack(name, v.Text())
  {
    ReleaseNameOf(v);
    if v.pre.Some? && v.post.None? {
      PreNameLeadsBack(v);
    } else if v.pre.Some? && v.pre.value.kind == Alpha {
      HotfixNameLeadsBack(v);
    } else {
      TextFacts(v);
      NoDashNoMatch(v.Text());
    }
  }

  lemma NormalNameLeadsBack(normal: string, name: string)
    requires IsNormal(normal) && name == ReleaseName(normal)
    ensures LeadsBack(name, normal)
  {
    var v: Version :| v.Valid() && v.Text() == normal;
    NameLeadsBack(v, name);
  }

  lemma LeadsBackToNormal(normal: string, name: string)
    requires IsNormal(normal) && LeadsBack(name, normal)
    ensures Normalize("rust-v" + name) == Some(normal)
  {
    NormalizeTagged(name);
  }

  /** For every version that normalises, its release tag normalises to the same version. */
  lemma TagNormalizesBack(version: string)
    requires Normalize(version).Some?
    ensures ReleaseTag(version).Some? && Normalize(ReleaseTag(version).value) == Normalize(version)
  {
    var normal := Normalize(version).value;
    var name := ReleaseName(normal);
    NormalNameLeadsBack(normal, name);
    LeadsBackToNormal(normal, name);
  }

  lemma RuntimeVersionIsNormal(version: string)
    requires IsRuntimeVersion(version)
    ensures Normalize(version) == Some(version)
  {
    NormalFormsAreStable(version);
  }

  /** Every accepted runtime version has a tag, and no two share one. */
  lemma RuntimeTagsAreDistinct(a: string, b: string)
    requires IsRuntimeVersion(a) && IsRuntimeVersion(b)
    ensures ResolveRuntimeRelease(a).Some?
    ensures ResolveRuntimeRelease(a) == ResolveRuntimeRelease(b) ==> a == b
  {
    RuntimeVersionIsNormal(a);
    RuntimeVersionIsNormal(b);
    TagNormalizesBack(a);
    TagNormalizesBack(b);
  }
}
