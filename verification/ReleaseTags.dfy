/** Which tag every version gets, written out. */
module ReleaseTags {
  import opened Wrappers
  import opened ReleaseVersion
  import opened ReleaseSpellings

  const WHITESPACE: string :=
    "\t\n\U{0B}\U{0C}\r\U{1C}\U{1D}\U{1E}\U{1F} \U{85}\U{A0}\U{1680}\U{2000}\U{2001}\U{2002}\U{2003}\U{2004}"
    + "\U{2005}\U{2006}\U{2007}\U{2008}\U{2009}\U{200A}\U{2028}\U{2029}\U{202F}\U{205F}\U{3000}"

  /** The characters `str.strip` removes, one by one. */
  lemma SpaceIff(c: char)
    ensures IsSpace(c) <==> c in WHITESPACE
  {
  }

  // ----- Runtime versions

  /** The three kinds of runtime version: `1.2.3`, `1.2.3a4` and `1.2.3a4.post5`. */
  datatype Runtime =
    | Stable(release: string)
    | AlphaOf(release: string, alpha: string)
    | HotfixOf(release: string, alpha: string, hotfix: string)

  ghost predicate Proper(r: Runtime) {
    && (exists a, b, c :: IsNumber(a) && IsNumber(b) && IsNumber(c) && r.release == a + "." + b + "." + c)
    && (r.Stable? || IsNumber(r.alpha)) && (r.HotfixOf? ==> IsNumber(r.hotfix))
  }

  function VersionText(r: Runtime): string {
    match r
    case Stable(release) => release
    case AlphaOf(release, alpha) => release + ("a" + alpha)
    case HotfixOf(release, alpha, hotfix) => release + ("a" + alpha + ".post" + hotfix)
  }

  function TagText(r: Runtime): string {
    match r
    case Stable(release) => "rust-v" + release
    case AlphaOf(release, alpha) => "rust-v" + (release + "-" + ("alpha." + alpha))
    case HotfixOf(release, alpha, hotfix) => "rust-v" + (release + "-" + ("alpha." + alpha + "." + hotfix))
  }

  function ToVersion(r: Runtime): Version {
    match r
    case Stable(release) => Version(release, None, None)
    case AlphaOf(release, alpha) => Version(release, Some(Pre(Alpha, alpha)), None)
    case HotfixOf(release, alpha, hotfix) => Version(release, Some(Pre(Alpha, alpha)), Some(hotfix))
  }

  lemma ThreeNumbersAreRelease(a: string, b: string, c: string)
    requires IsNumber(a) && IsNumber(b) && IsNumber(c)
    ensures IsRelease(a + "." + b + "." + c)
  {
    var s := a + "." + b + "." + c;
    assert s[0] == a[0] && s[|s|-1] == c[|c|-1];
    forall i | 0 <= i < |s| ensures s[i] == '.' <==> i == |a| || i == |a| + 1 + |b| {
      assert i < |a| ==> s[i] == a[i];
      assert |a| < i < |a| + 1 + |b| ==> s[i] == b[i - |a| - 1];
      assert i > |a| + 1 + |b| ==> s[i] == c[i - |a| - |b| - 2];
    }
    forall i | 0 <= i < |s| ensures IsDigit(s[i]) || s[i] == '.' {
      assert i < |a| ==> s[i] == a[i];
      assert |a| < i < |a| + 1 + |b| ==> s[i] == b[i - |a| - 1];
      assert i > |a| + 1 + |b| ==> s[i] == c[i - |a| - |b| - 2];
    }
  }

  lemma VersionOf(r: Runtime)
    requires Proper(r)
    ensures ToVersion(r).Valid() && ToVersion(r).Text() == VersionText(r)
    ensures "rust-v" + ReleaseName(VersionText(r)) == TagText(r)
  {
    var a, b, c :| IsNumber(a) && IsNumber(b) && IsNumber(c) && r.release == a + "." + b + "." + c;
    ThreeNumbersAreRelease(a, b, c);
    var v := ToVersion(r);
    Concatenated(v.release, v.PreText(), v.PostText());
    if r.HotfixOf? { Grouped("a", r.alpha, ".post", r.hotfix); }
    ReleaseNameOf(v);
    if r.AlphaOf? { assert "alpha" + "." == "alpha."; }
  }

  lemma Concatenated(a: string, b: string, c: string)
    ensures a + (b + "") == a + b && a + ("" + c) == a + c && a + ("" + "") == a
  {
  }

  lemma Grouped(a: string, b: string, c: string, d: string)
    ensures (a + b) + (c + d) == a + b + c + d
  {
  }

  lemma RuntimeOf(version: string) returns (r: Runtime)
    requires IsRuntimeVersion(version)
    ensures Proper(r) && VersionText(r) == version
  {
    var v: Version :|
      && v.Valid() && v.Text() == version && ThreeParts(v.release)
      && (v.pre.Some? ==> v.pre.value.kind == Alpha) && (v.post.Some? ==> v.pre.Some?);
    r := if v.pre.None? then Stable(v.release)
         else if v.post.None? then AlphaOf(v.release, v.pre.value.number)
         else HotfixOf(v.release, v.pre.value.number, v.post.value);
    assert ToVersion(r) == v;
    VersionOf(r);
  }

  lemma RuntimeIsAccepted(r: Runtime)
    requires Proper(r)
    ensures IsRuntimeVersion(VersionText(r))
  {
    VersionOf(r);
    var v := ToVersion(r);
    assert ThreeParts(v.release);
    assert v.Valid() && v.Text() == VersionText(r);
  }

  /** A version resolves to a tag exactly when they are the two texts of one runtime version. */
  lemma RuntimeReleaseIff(version: string, tag: string)
    ensures ResolveRuntimeRelease(version) == Some(tag)
       <==> exists r :: Proper(r) && VersionText(r) == version && TagText(r) == tag
  {
    if IsRuntimeVersion(version) {
      var r := RuntimeOf(version);
      VersionOf(r);
      RuntimeVersionIsNormal(version);
      if q :| Proper(q) && VersionText(q) == version && TagText(q) == tag { VersionOf(q); }
    } else if r :| Proper(r) && VersionText(r) == version && TagText(r) == tag {
      RuntimeIsAccepted(r);
    }
  }

  // ----- Tags of all spellings

  /** Every spelling of a version gets the tag of its release name: pre-releases and hotfixes of an alpha are
      spelled with a dash, everything else as in its normal form. */
  lemma SpellingTag(v: Version, style: Style, prefix: string, left: string, right: string)
    requires v.Valid() && Fits(v, style) && IsPrefix(prefix) && AllSpace(left) && AllSpace(right)
    ensures ReleaseTag(left + (prefix + Spelled(v, style) + right)) == Some("rust-v" + (
      match v.pre
      case None => v.Text()
      case Some(Pre(kind, number)) =>
        if v.post.None? then
          v.release + "-" + ((match kind case Alpha => "alpha" case Beta => "beta" case Candidate => "rc")
                             + "." + number)
        else if kind == Alpha then v.release + "-" + ("alpha." + number + "." + v.post.value)
        else v.Text()))
  {
    SpellingNormalizes(v, style, prefix, left, right);
    ReleaseNameOf(v);
  }
}
