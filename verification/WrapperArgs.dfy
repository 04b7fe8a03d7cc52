/** The argument wrapper of the argument-comment lint: reading user arguments and completing them. */
module WrapperArgs {
  const SEPARATOR: string := "--"

  /** What an argument before the separator says by itself. */
  datatype LintArg =
    | ManifestFlag | ManifestInline | PackageFlag | PackageInline | Fix | Workspace | NoDeps
    | LibraryFlag | LibraryInline | Plain

  function Classify(arg: string): LintArg {
    if arg == "--manifest-path" then ManifestFlag
    else if "--manifest-path=" <= arg then ManifestInline
    else if arg == "-p" || arg == "--package" then PackageFlag
    else if "--package=" <= arg then PackageInline
    else if arg == "--fix" then Fix
    else if arg == "--workspace" then Workspace
    else if arg == "--no-deps" then NoDeps
    else if arg == "--lib" || arg == "--lib-path" then LibraryFlag
    else if "--lib=" <= arg || "--lib-path=" <= arg then LibraryInline
    else Plain
  }

  /** After the separator, whether an argument selects cargo targets. */
  predicate SelectsTargets(arg: string) {
    || arg == "--all-targets" || arg == "--lib" || arg == "--bins" || arg == "--tests" || arg == "--examples"
    || arg == "--benches" || arg == "--doc"
    || arg == "--bin" || arg == "--test" || arg == "--example" || arg == "--bench"
    || "--bin=" <= arg || "--test=" <= arg || "--example=" <= arg || "--bench=" <= arg
  }

  datatype Expected = Nothing | ManifestPath | PackageSelection | LibrarySelection

  /** The flags noticed before the separator, and the value the next argument stands for. */
  datatype Flags = Flags(manifest: bool, package: bool, noDeps: bool, library: bool, fix: bool, expected: Expected)

  const NO_FLAGS := Flags(false, false, false, false, false, Nothing)

  /** One argument: the value that was expected, or a flag of its own. */
  function Notice(f: Flags, arg: LintArg): Flags {
    var idle := f.expected == Nothing;
    Flags(
      f.manifest || f.expected == ManifestPath || (idle && arg == ManifestInline),
      f.package || f.expected == PackageSelection || (idle && (arg == PackageInline || arg == Workspace)),
      f.noDeps || (idle && arg == NoDeps),
      f.library || f.expected == LibrarySelection || (idle && arg == LibraryInline),
      f.fix || (idle && arg == Fix),
      if idle then Expects(arg) else Nothing)
  }

  function Expects(arg: LintArg): Expected {
    match arg
    case ManifestFlag => ManifestPath
    case PackageFlag => PackageSelection
    case LibraryFlag => LibrarySelection
    case _ => Nothing
  }

  function NoticeAll(f: Flags, args: seq<string>): Flags
    decreases |args|
  {
    if args == [] then f else NoticeAll(Notice(f, Classify(args[0])), args[1..])
  }

  predicate AnySelectsTargets(args: seq<string>) {
    args != [] && (SelectsTargets(args[0]) || AnySelectsTargets(args[1..]))
  }

  /** The arguments before the first separator. */
  function Before(argv: seq<string>): (r: seq<string>)
    ensures SEPARATOR !in r
  {
    if argv == [] || argv[0] == SEPARATOR then [] else [argv[0]] + Before(argv[1..])
  }

  /** The arguments after the first separator. */
  function After(argv: seq<string>): seq<string> {
    if argv == [] then [] else if argv[0] == SEPARATOR then argv[1..] else After(argv[1..])
  }

  datatype Parsed = Parsed(
    lintArgs: seq<string>, cargoArgs: seq<string>, manifest: bool, package: bool, noDeps: bool, library: bool,
    targets: bool, fix: bool)

  function Parse(argv: seq<string>): Parsed {
    var f := NoticeAll(NO_FLAGS, Before(argv));
    Parsed(Before(argv), After(argv), f.manifest, f.package, f.noDeps, f.library, AnySelectsTargets(After(argv)), f.fix)
  }

  /** The arguments put in front of the user's. */
  function Injected(p: Parsed, manifestPath: string): seq<string> {
    (if p.manifest then [] else ["--manifest-path", manifestPath])
    + (if !p.package && !p.manifest then ["--workspace"] else [])
    + (if p.noDeps then [] else ["--no-deps"])
  }

  function CompletedCargo(p: Parsed): seq<string> {
    p.cargoArgs + if !p.fix && !p.targets then ["--all-targets"] else []
  }

  function WithCargo(lint: seq<string>, cargo: seq<string>): seq<string> {
    lint + if cargo == [] then [] else [SEPARATOR] + cargo
  }

  function Build(p: Parsed, manifestPath: string): seq<string> {
    WithCargo(Injected(p, manifestPath) + p.lintArgs, CompletedCargo(p))
  }

  // ----- The loops

  /** Where the reading loop stands after some arguments. */
  datatype Progress = Progress(lint: seq<string>, cargo: seq<string>, flags: Flags, targets: bool, afterSeparator: bool)

  function Advance(s: Progress, arg: string): Progress {
    if s.afterSeparator then s.(cargo := s.cargo + [arg], targets := s.targets || SelectsTargets(arg))
    else if arg == SEPARATOR then s.(afterSeparator := true)
    else s.(lint := s.lint + [arg], flags := Notice(s.flags, Classify(arg)))
  }

  lemma {:induction false} SplitSnoc(args: seq<string>, arg: string)
    ensures Before(args + [arg]) == if SEPARATOR in args || arg == SEPARATOR then Before(args) else Before(args) + [arg]
    ensures After(args + [arg]) == if SEPARATOR in args then After(args) + [arg] else []
  {
    if args == [] {
      assert args + [arg] == [arg] && [arg][1..] == [];
    } else {
      assert (args + [arg])[1..] == args[1..] + [arg];
      SplitSnoc(args[1..], arg);
      assert args == [args[0]] + args[1..];
    }
  }

  /** What the loop has found in `args`, told without the loop. */
  function Found(args: seq<string>): Progress {
    Progress(Before(args), After(args), NoticeAll(NO_FLAGS, Before(args)), AnySelectsTargets(After(args)),
      SEPARATOR in args)
  }

  lemma AdvanceFinds(args: seq<string>, arg: string)
    ensures Advance(Found(args), arg) == Found(args + [arg])
  {
    SplitSnoc(args, arg);
    NoticeSnoc(NO_FLAGS, Before(args), arg);
    TargetsSnoc(After(args), arg);
    if SEPARATOR !in args { NoAfter(args); }
  }

  lemma {:induction false} NoAfter(args: seq<string>)
    requires SEPARATOR !in args
    ensures After(args) == []
  {
    if args != [] { NoAfter(args[1..]); }
  }

  method NoticeArg(f: Flags, arg: LintArg) returns (r: Flags)
    ensures r == Notice(f, arg)
  {
    r := f.(expected := Nothing);
    if f.expected != Nothing {
      match f.expected {
        case ManifestPath => r := r.(manifest := true);
        case PackageSelection => r := r.(package := true);
        case LibrarySelection => r := r.(library := true);
      }
      return;
    }
    match arg
    case ManifestFlag => r := r.(expected := ManifestPath);
    case ManifestInline => r := r.(manifest := true);
    case PackageFlag => r := r.(expected := PackageSelection);
    case PackageInline => r := r.(package := true);
    case Fix => r := r.(fix := true);
    case Workspace => r := r.(package := true);
    case NoDeps => r := r.(noDeps := true);
    case LibraryFlag => r := r.(expected := LibrarySelection);
    case LibraryInline => r := r.(library := true);
    case Plain =>
  }

  method ParseWrapperArgs(argv: seq<string>) returns (p: Parsed)
    ensures p == Parse(argv)
  {
    var lint: seq<string>, cargo: seq<string> := [], [];
    var f, targets, afterSeparator := NO_FLAGS, false, false;
    for i := 0 to |argv|
      invariant Progress(lint, cargo, f, targets, afterSeparator) == Found(argv[..i])
    {
      var arg := argv[i];
      AdvanceFinds(argv[..i], arg);
      assert argv[..i+1] == argv[..i] + [arg];
      if afterSeparator {
        cargo := cargo + [arg];
        targets := targets || SelectsTargets(arg);
        continue;
      }
      if arg == SEPARATOR {
        afterSeparator := true;
        continue;
      }
      lint := lint + [arg];
      f := NoticeArg(f, Classify(arg));
    }
    assert argv[..|argv|] == argv;
    p := Parsed(lint, cargo, f.manifest, f.package, f.noDeps, f.library, targets, f.fix);
  }

  method BuildFinalArgs(p: Parsed, manifestPath: string) returns (args: seq<string>)
    ensures args == Build(p, manifestPath)
  {
    args := [];
    var cargo := p.cargoArgs;
    if !p.manifest {
      args := args + ["--manifest-path", manifestPath];
    }
    if !p.package && !p.manifest {
      args := args + ["--workspace"];
    }
    if !p.noDeps {
      args := args + ["--no-deps"];
    }
    if !p.fix && !p.targets {
      cargo := cargo + ["--all-targets"];
    }
    args := args + p.lintArgs;
    if cargo != [] {
      args := args + ([SEPARATOR] + cargo);
    }
  }

  // ----- Reading back what was built

  lemma {:induction false} NoticeAppend(f: Flags, a: seq<string>, b: seq<string>)
    ensures NoticeAll(f, a + b) == NoticeAll(NoticeAll(f, a), b)
    decreases |a|
  {
    if a == [] { assert a + b == b; } else {
      assert (a + b)[1..] == a[1..] + b;
      NoticeAppend(Notice(f, Classify(a[0])), a[1..], b);
    }
  }

  lemma {:induction false} TargetsAppend(a: seq<string>, b: seq<string>)
    ensures AnySelectsTargets(a + b) <==> AnySelectsTargets(a) || AnySelectsTargets(b)
  {
    if a == [] { assert a + b == b; } else {
      assert (a + b)[1..] == a[1..] + b;
      TargetsAppend(a[1..], b);
    }
  }

  lemma NoticeSnoc(f: Flags, args: seq<string>, arg: string)
    ensures NoticeAll(f, args + [arg]) == Notice(NoticeAll(f, args), Classify(arg))
  {
    NoticeAppend(f, args, [arg]);
    assert [arg][1..] == [];
  }

  lemma TargetsSnoc(args: seq<string>, arg: string)
    ensures AnySelectsTargets(args + [arg]) <==> AnySelectsTargets(args) || SelectsTargets(arg)
  {
    TargetsAppend(args, [arg]);
    assert [arg][1..] == [];
  }

  lemma {:induction false} SplitBack(lint: seq<string>, cargo: seq<string>)
    requires SEPARATOR !in lint
    ensures Before(WithCargo(lint, cargo)) == lint && After(WithCargo(lint, cargo)) == cargo
  {
    var all := WithCargo(lint, cargo);
    if lint == [] {
      if cargo != [] { assert all == [SEPARATOR] + cargo && all[1..] == cargo; }
    } else {
      assert all[0] == lint[0] && all[1..] == WithCargo(lint[1..], cargo);
      SplitBack(lint[1..], cargo);
    }
  }

  lemma InjectedFlags()
    ensures Classify("--manifest-path") == ManifestFlag && Classify("--workspace") == Workspace
      && Classify("--no-deps") == NoDeps
    ensures "--manifest-path" != SEPARATOR && "--workspace" != SEPARATOR && "--no-deps" != SEPARATOR
    ensures SelectsTargets("--all-targets")
  {
    assert "--workspace"[2] == 'w' && "--no-deps"[2] == 'n' && "--manifest-path="[2] == 'm' && "--package="[2] == 'p';
    assert |"--manifest-path"| == 15 && |"--workspace"| == 11 && |"--no-deps"| == 9 && |"--fix"| == 5
      && |"--package"| == 9;
    assert "--package"[2] == 'p';
  }

  /** The injected arguments set exactly the flags they stand for, and leave no value pending. */
  lemma InjectedNoticed(p: Parsed, manifestPath: string)
    ensures NoticeAll(NO_FLAGS, Injected(p, manifestPath))
      == NO_FLAGS.(manifest := !p.manifest, package := !p.package && !p.manifest, noDeps := !p.noDeps)
  {
    InjectedFlags();
    var a := if p.manifest then [] else ["--manifest-path", manifestPath];
    var b := if !p.package && !p.manifest then ["--workspace"] else [];
    var c := if p.noDeps then [] else ["--no-deps"];
    var fa := NO_FLAGS.(manifest := !p.manifest);
    assert NoticeAll(NO_FLAGS, a) == fa by {
      if !p.manifest {
        assert a[1..] == [manifestPath];
        assert NoticeAll(NO_FLAGS.(expected := ManifestPath), [manifestPath]) == fa;
      }
    }
    var fb := fa.(package := !p.package && !p.manifest);
    assert NoticeAll(fa, b) == fb;
    assert NoticeAll(fb, c) == fb.(noDeps := !p.noDeps);
    NoticeAppend(NO_FLAGS, a, b);
    NoticeAppend(NO_FLAGS, a + b, c);
  }

  /** `f` has noticed at least what `g` has, agrees with it on `--fix`, and waits for the same value. */
  ghost predicate AheadOf(f: Flags, g: Flags) {
    f.expected == g.expected && f.fix == g.fix && (g.manifest ==> f.manifest) && (g.noDeps ==> f.noDeps)
  }

  lemma StepAhead(f: Flags, g: Flags, arg: LintArg)
    requires AheadOf(f, g)
    ensures AheadOf(Notice(f, arg), Notice(g, arg))
    ensures (f.manifest ==> Notice(f, arg).manifest) && (f.noDeps ==> Notice(f, arg).noDeps)
  {
  }

  lemma {:induction false} StaysAhead(f: Flags, g: Flags, args: seq<string>)
    requires AheadOf(f, g)
    ensures AheadOf(NoticeAll(f, args), NoticeAll(g, args))
    ensures (f.manifest ==> NoticeAll(f, args).manifest) && (f.noDeps ==> NoticeAll(f, args).noDeps)
    decreases |args|
  {
    if args != [] {
      var arg := Classify(args[0]);
      StepAhead(f, g, arg);
      StaysAhead(Notice(f, arg), Notice(g, arg), args[1..]);
    }
  }

  lemma NoticeBuilt(p: Parsed, manifestPath: string)
    requires p.manifest == NoticeAll(NO_FLAGS, p.lintArgs).manifest
      && p.noDeps == NoticeAll(NO_FLAGS, p.lintArgs).noDeps
    ensures var f := NoticeAll(NO_FLAGS, Injected(p, manifestPath) + p.lintArgs);
      f.manifest && f.noDeps && f.fix == NoticeAll(NO_FLAGS, p.lintArgs).fix
  {
    var injected := Injected(p, manifestPath);
    NoticeAppend(NO_FLAGS, injected, p.lintArgs);
    InjectedNoticed(p, manifestPath);
    StaysAhead(NoticeAll(NO_FLAGS, injected), NO_FLAGS, p.lintArgs);
  }

  lemma TargetsBuilt(p: Parsed)
    requires p.targets == AnySelectsTargets(p.cargoArgs)
    ensures AnySelectsTargets(CompletedCargo(p)) == (p.targets || !p.fix)
  {
    InjectedFlags();
    if !p.fix && !p.targets {
      TargetsSnoc(p.cargoArgs, "--all-targets");
    } else {
      assert CompletedCargo(p) == p.cargoArgs;
    }
  }

  lemma ParseBuilt(p: Parsed, argv: seq<string>, manifestPath: string)
    requires p == Parse(argv) && (manifestPath != SEPARATOR || p.manifest)
    ensures var q := Parse(Build(p, manifestPath));
      && q.lintArgs == Injected(p, manifestPath) + p.lintArgs
      && q.cargoArgs == CompletedCargo(p)
      && q.manifest && q.noDeps && q.fix == p.fix && q.targets == (p.targets || !p.fix)
  {
    assert SEPARATOR !in Injected(p, manifestPath) by { InjectedFlags(); }
    SplitBack(Injected(p, manifestPath) + p.lintArgs, CompletedCargo(p));
    NoticeBuilt(p, manifestPath);
    TargetsBuilt(p);
  }

  /** Completing completed arguments changes nothing, exactly when the manifest path is not a bare
      separator that would have to be injected. */
  lemma BuildIsIdempotentIff(argv: seq<string>, manifestPath: string)
    ensures var once := Build(Parse(argv), manifestPath);
      Build(Parse(once), manifestPath) == once <==> manifestPath != SEPARATOR || Parse(argv).manifest
  {
    var p := Parse(argv);
    var once := Build(p, manifestPath);
    if manifestPath != SEPARATOR || p.manifest {
      ParseBuilt(p, argv, manifestPath);
      var q := Parse(once);
      assert Injected(q, manifestPath) == [];
      assert CompletedCargo(q) == CompletedCargo(p);
      assert [] + q.lintArgs == q.lintArgs;
    } else {
      SeparatorAsManifest(p);
    }
  }

  /** Without user arguments and with a manifest path of `--`, every pass adds more. */
  lemma SeparatorManifestGrows()
    ensures var once := Build(Parse([]), SEPARATOR); |Build(Parse(once), SEPARATOR)| > |once|
  {
    SeparatorAsManifest(Parse([]));
  }

  /** A separator injected as the manifest path ends the lint arguments: everything after it goes to cargo. */
  lemma SeparatorSplitsEarly(p: Parsed)
    requires !p.manifest
    ensures var once := Build(p, SEPARATOR);
      && |once| >= 2 && Before(once) == ["--manifest-path"] && After(once) == once[2..]
      && Injected(p, SEPARATOR)[2..] + p.lintArgs <= After(once)
  {
    InjectedFlags();
    var once := Build(p, SEPARATOR);
    assert once[0] == "--manifest-path" && once[1] == SEPARATOR;
    assert once[1..][0] == SEPARATOR && once[1..][1..] == once[2..];
    assert Before(once) == ["--manifest-path"] by { assert Before(once[1..]) == []; }
    assert After(once) == once[2..] by { assert After(once) == After(once[1..]); }
    var lint := Injected(p, SEPARATOR) + p.lintArgs;
    assert lint <= once && lint[2..] == Injected(p, SEPARATOR)[2..] + p.lintArgs;
    assert once[2..][..|lint|-2] == lint[2..];
  }

  lemma SeparatorAsManifest(p: Parsed)
    requires !p.manifest
    ensures |Build(Parse(Build(p, SEPARATOR)), SEPARATOR)| > |Build(p, SEPARATOR)|
  {
    InjectedFlags();
    SeparatorSplitsEarly(p);
    var once := Build(p, SEPARATOR);
    var q := Parse(once);
    assert NoticeAll(NO_FLAGS, ["--manifest-path"]) == NO_FLAGS.(expected := ManifestPath) by {
      assert ["--manifest-path"][1..] == [];
    }
    assert |Injected(q, SEPARATOR)| == 4 && |q.lintArgs| == 1 && |q.cargoArgs| == |once| - 2;
  }

  /** The user's lint arguments stay before the separator, after the injected ones, exactly when the manifest
      path is not a separator to be injected. Then the cargo arguments stay behind it, with at most one
      added; otherwise the lint arguments end up among the cargo arguments. */
  lemma UserArgumentsSurviveIff(argv: seq<string>, manifestPath: string)
    ensures var p, built := Parse(argv), Build(Parse(argv), manifestPath);
      var kept := manifestPath != SEPARATOR || p.manifest;
      && (Before(built) == Injected(p, manifestPath) + Before(argv) <==> kept)
      && (kept ==> After(argv) <= After(built) && |After(built)| <= |After(argv)| + 1)
      && (!kept ==>
            Before(built) == ["--manifest-path"] && Injected(p, manifestPath)[2..] + Before(argv) <= After(built))
  {
    var p := Parse(argv);
    if manifestPath != SEPARATOR || p.manifest {
      ParseBuilt(p, argv, manifestPath);
    } else {
      SeparatorSplitsEarly(p);
    }
  }

  /** With the manifest path `--` a lint argument of the user's ends up behind the separator. */
  lemma SeparatorManifestDisplaces()
    ensures var built := Build(Parse(["x"]), SEPARATOR); Before(built) == ["--manifest-path"] && "x" in After(built)
  {
    InjectedFlags();
    var argv, p := ["x"], Parse(["x"]);
    assert argv[1..] == [] && "x" != SEPARATOR;
    assert Before(argv) == ["x"];
    assert !p.manifest by {
      assert |"x"| == 1 && "x"[0] == 'x';
      assert NoticeAll(NO_FLAGS, argv) == NoticeAll(Notice(NO_FLAGS, Classify("x")), argv[1..]);
    }
    UserArgumentsSurviveIff(argv, SEPARATOR);
    var moved := Injected(p, SEPARATOR)[2..] + Before(argv);
    assert moved[|moved|-1] == "x";
  }
}
