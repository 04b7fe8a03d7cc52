/** What the wrapper reads out of its arguments, told from the arguments themselves. */
module WrapperMeaning {
  import opened WrapperArgs

  // ----- Single arguments

  predicate NamesManifest(arg: string) { arg == "--manifest-path" }

  predicate NamesPackage(arg: string) { arg in {"-p", "--package"} }

  predicate NamesLibrary(arg: string) { arg in {"--lib", "--lib-path"} }

  predicate SetsManifest(arg: string) { "--manifest-path=" <= arg }

  predicate SetsPackage(arg: string) { "--package=" <= arg || arg == "--workspace" }

  predicate SetsLibrary(arg: string) { "--lib=" <= arg || "--lib-path=" <= arg }

  lemma Spellings(arg: string)
    ensures NamesManifest(arg) ==> |arg| == 15 && arg[2] == 'm'
    ensures SetsManifest(arg) ==> |arg| >= 16 && arg[2] == 'm'
    ensures NamesPackage(arg) ==> (|arg| == 2 && arg[1] == 'p') || (|arg| == 9 && arg[2] == 'p')
    ensures "--package=" <= arg ==> |arg| >= 10 && arg[2] == 'p'
    ensures arg == "--workspace" ==> |arg| == 11 && arg[2] == 'w'
    ensures arg == "--fix" ==> |arg| == 5 && arg[2] == 'f'
    ensures arg == "--no-deps" ==> |arg| == 9 && arg[2] == 'n'
    ensures NamesLibrary(arg) ==> |arg| in {5, 10} && arg[2] == 'l' && (|arg| == 10 ==> arg[5] == '-')
    ensures "--lib=" <= arg ==> |arg| >= 6 && arg[2] == 'l' && arg[5] == '='
    ensures "--lib-path=" <= arg ==> |arg| >= 11 && arg[2] == 'l' && arg[5] == '-'
  {
    assert "--manifest-path="[2] == 'm' && "--package="[2] == 'p' && "--lib="[2] == 'l' && "--lib="[5] == '=';
    assert "--lib-path="[2] == 'l' && "--lib-path="[5] == '-';
  }

  /** No argument means two things. */
  lemma ClassifyIff(arg: string)
    ensures Classify(arg) == ManifestFlag <==> NamesManifest(arg)
    ensures Classify(arg) == ManifestInline <==> SetsManifest(arg)
    ensures Classify(arg) == PackageFlag <==> NamesPackage(arg)
    ensures Classify(arg) in {PackageInline, Workspace} <==> SetsPackage(arg)
    ensures Classify(arg) == Fix <==> arg == "--fix"
    ensures Classify(arg) == NoDeps <==> arg == "--no-deps"
    ensures Classify(arg) == LibraryFlag <==> NamesLibrary(arg)
    ensures Classify(arg) == LibraryInline <==> SetsLibrary(arg)
  {
    Spellings(arg);
  }

  // ----- Arguments in their place

  /** The argument is the value of the one before it. */
  predicate IsValue(args: seq<string>, i: nat)
    requires i <= |args|
  {
    i > 0 && !IsValue(args, i - 1)
    && (NamesManifest(args[i-1]) || NamesPackage(args[i-1]) || NamesLibrary(args[i-1]))
  }

  /** Among the first `n` arguments, one that is not itself a value names this with a value after it, or sets it. */
  ghost predicate Given(args: seq<string>, n: nat, names: string -> bool, sets: string -> bool)
    requires n <= |args|
  {
    exists i :: 0 <= i < n && !IsValue(args, i) && ((names(args[i]) && i + 1 < n) || sets(args[i]))
  }

  lemma GivenStep(args: seq<string>, n: nat, names: string -> bool, sets: string -> bool)
    requires n < |args|
    ensures Given(args, n + 1, names, sets) <==>
      || Given(args, n, names, sets)
      || (n > 0 && !IsValue(args, n - 1) && names(args[n-1]))
      || (!IsValue(args, n) && sets(args[n]))
  {
    if n > 0 && !IsValue(args, n - 1) && names(args[n-1]) { assert Given(args, n + 1, names, sets); }
    if !IsValue(args, n) && sets(args[n]) { assert Given(args, n + 1, names, sets); }
    if Given(args, n + 1, names, sets) {
      var i :| 0 <= i < n + 1 && !IsValue(args, i) && ((names(args[i]) && i + 1 < n + 1) || sets(args[i]));
      assert i < n - 1 || i == n - 1 || i == n;
    }
  }

  predicate Never(arg: string) { false }

  /** What is waited for after the first `n` arguments. */
  function Pending(args: seq<string>, n: nat): Expected
    requires n <= |args|
  {
    if !IsValue(args, n) then Nothing
    else if NamesManifest(args[n-1]) then ManifestPath
    else if NamesPackage(args[n-1]) then PackageSelection
    else LibrarySelection
  }

  ghost predicate Noted(f: Flags, args: seq<string>, n: nat)
    requires n <= |args|
  {
    && f.expected == Pending(args, n)
    && f.manifest == Given(args, n, NamesManifest, SetsManifest)
    && f.package == Given(args, n, NamesPackage, SetsPackage)
    && f.library == Given(args, n, NamesLibrary, SetsLibrary)
    && f.fix == Given(args, n, Never, arg => arg == "--fix")
    && f.noDeps == Given(args, n, Never, arg => arg == "--no-deps")
  }

  lemma PendingIs(args: seq<string>, n: nat)
    requires n <= |args|
    ensures Pending(args, n) == ManifestPath <==> n > 0 && !IsValue(args, n - 1) && NamesManifest(args[n-1])
    ensures Pending(args, n) == PackageSelection <==> n > 0 && !IsValue(args, n - 1) && NamesPackage(args[n-1])
    ensures Pending(args, n) == LibrarySelection <==> n > 0 && !IsValue(args, n - 1) && NamesLibrary(args[n-1])
    ensures Pending(args, n) == Nothing <==> !IsValue(args, n)
  {
    if n > 0 { Spellings(args[n-1]); }
  }

  lemma PendingNext(args: seq<string>, n: nat)
    requires n < |args|
    ensures Pending(args, n + 1) == if Pending(args, n) == Nothing then Expects(Classify(args[n])) else Nothing
  {
    PendingIs(args, n);
    PendingIs(args, n + 1);
    ClassifyIff(args[n]);
  }

  lemma NoticeStep(f: Flags, args: seq<string>, n: nat)
    requires n < |args| && Noted(f, args, n)
    ensures Noted(Notice(f, Classify(args[n])), args, n + 1)
  {
    ClassifyIff(args[n]);
    PendingIs(args, n);
    PendingNext(args, n);
    GivenStep(args, n, NamesManifest, SetsManifest);
    GivenStep(args, n, NamesPackage, SetsPackage);
    GivenStep(args, n, NamesLibrary, SetsLibrary);
    GivenStep(args, n, Never, arg => arg == "--fix");
    GivenStep(args, n, Never, arg => arg == "--no-deps");
  }

  lemma {:induction false} FlagsNoted(args: seq<string>, n: nat)
    requires n <= |args|
    ensures Noted(NoticeAll(NO_FLAGS, args[..n]), args, n)
  {
    if n > 0 {
      FlagsNoted(args, n - 1);
      NoticeStep(NoticeAll(NO_FLAGS, args[..n-1]), args, n - 1);
      assert args[..n] == args[..n-1] + [args[n-1]];
      NoticeSnoc(NO_FLAGS, args[..n-1], args[n-1]);
    }
  }

  // ----- The command line

  predicate Targets(arg: string) {
    || arg in {"--all-targets", "--lib", "--bins", "--tests", "--examples", "--benches", "--doc",
               "--bin", "--test", "--example", "--bench"}
    || "--bin=" <= arg || "--test=" <= arg || "--example=" <= arg || "--bench=" <= arg
  }

  lemma {:induction false} TargetsIff(args: seq<string>)
    ensures AnySelectsTargets(args) <==> exists i :: 0 <= i < |args| && Targets(args[i])
  {
    if args != [] {
      TargetsIff(args[1..]);
      assert SelectsTargets(args[0]) <==> Targets(args[0]);
      if i :| 0 <= i < |args| && Targets(args[i]) {
        assert i > 0 ==> args[1..][i-1] == args[i];
      }
      if i :| 0 <= i < |args[1..]| && Targets(args[1..][i]) { assert Targets(args[i+1]); }
    }
  }

  lemma {:induction false} SplitIs(argv: seq<string>)
    ensures "--" !in Before(argv)
    ensures if "--" in argv then argv == Before(argv) + ["--"] + After(argv)
            else argv == Before(argv) && After(argv) == []
  {
    if argv != [] {
      SplitIs(argv[1..]);
      assert argv == [argv[0]] + argv[1..];
    }
  }

  /** What is read out of a command line: its arguments before and after the first separator; before it, whether a
      manifest, a package, a library, `--fix` or `--no-deps` is given; after it, whether targets are selected. */
  lemma ParseIs(argv: seq<string>, lint: seq<string>, cargo: seq<string>)
    requires "--" !in lint && (argv == lint + ["--"] + cargo || (argv == lint && cargo == []))
    ensures Parse(argv) == Parsed(
      lint, cargo, Given(lint, |lint|, NamesManifest, SetsManifest), Given(lint, |lint|, NamesPackage, SetsPackage),
      Given(lint, |lint|, Never, arg => arg == "--no-deps"), Given(lint, |lint|, NamesLibrary, SetsLibrary),
      exists i :: 0 <= i < |cargo| && Targets(cargo[i]), Given(lint, |lint|, Never, arg => arg == "--fix"))
  {
    SplitIs(argv);
    SameSplit(lint, cargo, Before(argv), After(argv), argv);
    FlagsNoted(lint, |lint|);
    assert lint[..|lint|] == lint;
    TargetsIff(cargo);
  }

  lemma SameSplit(a: seq<string>, b: seq<string>, c: seq<string>, d: seq<string>, argv: seq<string>)
    requires "--" !in a && (argv == a + ["--"] + b || (argv == a && b == []))
    requires "--" !in c && (argv == c + ["--"] + d || (argv == c && d == []))
    ensures a == c && b == d
  {
    assert |a| < |argv| ==> argv[|a|] == "--";
    assert |c| < |argv| ==> argv[|c|] == "--";
    assert forall i :: 0 <= i < |a| ==> argv[i] == a[i];
    assert forall i :: 0 <= i < |c| ==> argv[i] == c[i];
    assert |a| == |c|;
    assert a == argv[..|a|] && c == argv[..|a|];
    assert |a| < |argv| ==> b == argv[|a|+1..] && d == argv[|a|+1..];
  }

  // ----- The completed command line

  lemma {:induction false} PackageSplits(f: Flags, g: Flags, args: seq<string>)
    requires f.expected == g.expected && !g.package
    ensures NoticeAll(f, args).package == (f.package || NoticeAll(g, args).package)
    decreases |args|
  {
    if args != [] {
      var arg := Classify(args[0]);
      var next := Notice(g, arg);
      if next.package {
        PackageStays(Notice(f, arg), args[1..]);
        PackageStays(next, args[1..]);
      } else {
        PackageSplits(Notice(f, arg), next, args[1..]);
      }
    }
  }

  lemma {:induction false} PackageStays(f: Flags, args: seq<string>)
    requires f.package
    ensures NoticeAll(f, args).package
    decreases |args|
  {
    if args != [] { PackageStays(Notice(f, Classify(args[0])), args[1..]); }
  }

  /** Completed arguments give a manifest, first of all the default one unless the user gave another; select the
      workspace unless the user gave a manifest or a package; leave dependencies out; keep the user's arguments,
      last among those for the lint and first among those for cargo; and select targets or fix. */
  lemma BuiltSays(argv: seq<string>, manifestPath: string)
    requires manifestPath != "--" || Parse(argv).manifest
    ensures var p := Parse(argv);
      var q := Parse(Build(p, manifestPath));
      var added := |q.lintArgs| - |p.lintArgs|;
      && q.manifest && q.noDeps && q.fix == p.fix && q.targets == (p.targets || !p.fix)
      && q.package == (p.package || !p.manifest)
      && 0 <= added && q.lintArgs[added..] == p.lintArgs && p.cargoArgs <= q.cargoArgs
      && added
           == (if p.manifest then 0 else 2) + (if p.package || p.manifest then 0 else 1) + (if p.noDeps then 0 else 1)
      && |q.cargoArgs| == |p.cargoArgs| + (if p.fix || p.targets then 0 else 1)
      && (!p.manifest ==> q.lintArgs[..2] == ["--manifest-path", manifestPath])
  {
    var p := Parse(argv);
    ParseBuilt(p, argv, manifestPath);
    var injected := Injected(p, manifestPath);
    InjectedNoticed(p, manifestPath);
    NoticeAppend(NO_FLAGS, injected, p.lintArgs);
    PackageSplits(NoticeAll(NO_FLAGS, injected), NO_FLAGS, p.lintArgs);
    assert (injected + p.lintArgs)[|injected|..] == p.lintArgs;
    if !p.manifest { assert injected[..2] == ["--manifest-path", manifestPath]; }
  }
}
