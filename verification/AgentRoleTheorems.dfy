/** How a loaded role comes about across layers and inside one layer. */
module AgentRoleTheorems {
  import opened Wrappers
  import opened Sorting
  import opened AgentRoles

  // ----- Across layers

  ghost predicate Describes(owns: seq<Discovered>, i: nat, name: string) {
    i < |owns| && name in owns[i].roles && owns[i].roles[name].description.Some?
  }

  /** The lowest of the first `n` layers where the role carries a description; `n` if there is none. */
  ghost function FirstDescribed(owns: seq<Discovered>, name: string, n: nat): (r: nat)
    requires n <= |owns|
    ensures r <= n && (r < n ==> Describes(owns, r, name))
    ensures forall i :: 0 <= i < r ==> !Describes(owns, i, name)
  {
    if n == 0 then 0
    else
      var before := FirstDescribed(owns, name, n - 1);
      if before < n - 1 then before else if Describes(owns, n - 1, name) then n - 1 else n
  }

  /** The field's value in the highest of the layers `lo .. n` that sets it. */
  ghost function Highest<T>(owns: seq<Discovered>, name: string, field: Role -> Option<T>, lo: nat, n: nat): Option<T>
    requires lo <= n <= |owns|
  {
    if n == lo then None
    else if name in owns[n-1].roles && field(owns[n-1].roles[name]).Some? then field(owns[n-1].roles[name])
    else Highest(owns, name, field, lo, n - 1)
  }

  ghost function Description(): Role -> Option<string> { (r: Role) => r.description }

  ghost function ConfigFile(): Role -> Option<Path> { (r: Role) => r.configFile }

  ghost function Nicknames(): Role -> Option<seq<string>> { (r: Role) => r.nicknames }

  ghost predicate Resolved(owns: seq<Discovered>, name: string, n: nat, roles: Roles)
    requires n <= |owns|
  {
    var first := FirstDescribed(owns, name, n);
    && (name in roles <==> first < n)
    && (name in roles ==>
          && roles[name].description.Some?
          && roles[name].description == Highest(owns, name, Description(), first, n)
          && roles[name].configFile == Highest(owns, name, ConfigFile(), first, n)
          && roles[name].nicknames == Highest(owns, name, Nicknames(), first, n))
  }

  lemma {:induction false} MergeAllResolves(owns: seq<Discovered>, name: string, n: nat)
    requires n <= |owns|
    ensures Resolved(owns, name, n, MergeAll(owns, n))
  {
    if n > 0 {
      MergeAllResolves(owns, name, n - 1);
      var first := FirstDescribed(owns, name, n);
      if first == n - 1 {
        assert Highest(owns, name, ConfigFile(), first, n - 1) == None;
        assert Highest(owns, name, Nicknames(), first, n - 1) == None;
      }
    }
  }

  /** A role is loaded exactly when some layer describes it, and each of its fields is the one of
      the highest layer that sets it, counting from the first layer that describes the role. */
  lemma LoadedRoleResolvesFields(layers: seq<Layer>, name: string)
    requires Load(layers).Loaded?
    ensures Resolved(OwnRoles(layers), name, |layers|, Load(layers).roles)
  {
    MergeAllResolves(OwnRoles(layers), name, |layers|);
  }

  /** Loading one more layer: once loaded, a role never disappears and never loses its description. */
  lemma RolesPersist(layers: seq<Layer>, name: string, n: nat)
    requires n <= |layers| && Load(layers).Loaded? && Load(layers[..n]).Loaded? && name in Load(layers[..n]).roles
    ensures name in Load(layers).roles && Load(layers).roles[name].description.Some?
  {
    var owns, low := OwnRoles(layers), OwnRoles(layers[..n]);
    LoadedRoleResolvesFields(layers[..n], name);
    LoadedRoleResolvesFields(layers, name);
    var first := FirstDescribed(low, name, n);
    assert Describes(owns, first, name) by {
      assert low[first] == LayerRoles(layers[..n][first]) == owns[first];
    }
  }

  // ----- Inside a layer: the first definition wins

  /** The first of `n` entries that declares the role; `n` if none does. */
  ghost function FirstEntry(entries: seq<Entry>, name: string, n: nat): (r: nat)
    requires n <= |entries|
    ensures r <= n && (r < n ==> Declares(entries[r], name))
    ensures forall i :: 0 <= i < r ==> !Declares(entries[i], name)
  {
    if n == 0 then 0
    else
      var before := FirstEntry(entries, name, n - 1);
      if before < n - 1 then before else if Declares(entries[n-1], name) then n - 1 else n
  }

  ghost predicate Declares(e: Entry, name: string) { ReadDeclared(e).Some? && ReadDeclared(e).value.0 == name }

  ghost predicate Provides(files: set<Path>, f: Found, name: string) {
    f.path !in files && ReadFound(f).Some? && ReadFound(f).value.0 == name
  }

  /** The first of `n` discovered files, not already declared, that provides the role; `n` if none does. */
  ghost function FirstFound(files: set<Path>, found: seq<Found>, name: string, n: nat): (r: nat)
    requires n <= |found|
    ensures r <= n && (r < n ==> Provides(files, found[r], name))
    ensures forall i :: 0 <= i < r ==> !Provides(files, found[i], name)
  {
    if n == 0 then 0
    else
      var before := FirstFound(files, found, name, n - 1);
      if before < n - 1 then before else if Provides(files, found[n-1], name) then n - 1 else n
  }

  lemma {:induction false} FirstDeclarationWins(entries: seq<Entry>, name: string, n: nat, warnings: seq<Warning>)
    requires n <= |entries|
    ensures var roles, first := Declare(entries, n, warnings).roles, FirstEntry(entries, name, n);
      (name in roles <==> first < n) && (name in roles ==> roles[name] == ReadDeclared(entries[first]).value.1)
  {
    if n > 0 { FirstDeclarationWins(entries, name, n - 1, warnings); }
  }

  lemma {:induction false} FirstFileWins(
    files: set<Path>, found: seq<Found>, name: string, n: nat, warnings: seq<Warning>)
    requires n <= |found|
    ensures var roles, first := Discover(files, found, n, warnings).roles, FirstFound(files, found, name, n);
      (name in roles <==> first < n) && (name in roles ==> roles[name] == ReadFound(found[first]).value.1)
  {
    if n > 0 { FirstFileWins(files, found, name, n - 1, warnings); }
  }

  function Entries(layer: Layer): seq<Entry> { if layer.table.Table? then layer.table.entries else [] }

  function FoundFiles(layer: Layer): seq<Found> { if layer.folder.Files? then layer.folder.found else [] }

  function Before(layer: Layer): seq<Warning> { if layer.table.Unreadable? then [UnreadableTable] else [] }

  function DeclaredIn(layer: Layer): Declared { Declare(Entries(layer), |Entries(layer)|, Before(layer)) }

  /** In one layer the first declaration of a role wins; failing that, the first discovered file in path order. */
  lemma LayerRoleIsFirstDefinition(layer: Layer, name: string)
    ensures var own := LayerRoles(layer).roles;
      var entry := FirstEntry(Entries(layer), name, |Entries(layer)|);
      var file := FirstFound(DeclaredIn(layer).files, FoundFiles(layer), name, |FoundFiles(layer)|);
      && (name in own <==> entry < |Entries(layer)| || file < |FoundFiles(layer)|)
      && (name in own ==> own[name] == if entry < |Entries(layer)| then ReadDeclared(Entries(layer)[entry]).value.1
                                       else ReadFound(FoundFiles(layer)[file]).value.1)
  {
    var entries, found := Entries(layer), FoundFiles(layer);
    FirstDeclarationWins(entries, name, |entries|, Before(layer));
    FirstFileWins(DeclaredIn(layer).files, found, name, |found|, DeclaredIn(layer).warnings);
  }

  // ----- Inside a layer: nothing is lost silently

  function Undeclared(files: set<Path>, found: seq<Found>, n: nat): nat
    requires n <= |found|
  {
    if n == 0 then 0 else Undeclared(files, found, n - 1) + if found[n-1].path in files then 0 else 1
  }

  lemma {:induction false} DeclareCounts(entries: seq<Entry>, n: nat, warnings: seq<Warning>)
    requires n <= |entries|
    ensures var acc := Declare(entries, n, warnings); |acc.roles| + |acc.warnings| == n + |warnings|
  {
    if n > 0 { DeclareCounts(entries, n - 1, warnings); }
  }

  lemma {:induction false} DiscoverCounts(files: set<Path>, found: seq<Found>, n: nat, warnings: seq<Warning>)
    requires n <= |found|
    ensures var acc := Discover(files, found, n, warnings);
      |acc.roles| + |acc.warnings| == Undeclared(files, found, n) + |warnings|
  {
    if n > 0 { DiscoverCounts(files, found, n - 1, warnings); }
  }

  lemma {:induction false} DuplicateCounts(declared: Roles, names: seq<string>, n: nat)
    requires n <= |names| && NoDuplicates(names)
    ensures |DuplicateWarnings(declared, names, n)| == |declared.Keys * Elements(names[..n])|
  {
    if n == 0 {
      assert declared.Keys * Elements(names[..0]) == {};
    } else {
      DuplicateCounts(declared, names, n - 1);
      ElementsSnoc(names, n);
      OneMoreCommon(declared.Keys, Elements(names[..n-1]), names[n-1]);
    }
  }

  lemma OneMoreCommon(a: set<string>, b: set<string>, x: string)
    requires x !in b
    ensures |a * (b + {x})| == |a * b| + if x in a then 1 else 0
  {
    if x in a {
      assert a * (b + {x}) == a * b + {x};
    } else {
      assert a * (b + {x}) == a * b;
    }
  }

  lemma UnionSize(a: set<string>, b: set<string>)
    ensures |a + b| + |b * a| == |a| + |b|
  {
    var extra := b - a;
    assert |a + b| == |a| + |extra| by { assert a + b == a + extra; }
    assert |b| == |b * a| + |extra| by { assert b == (b * a) + extra; }
  }

  ghost function StoredAmong(roles: Roles, layer: Roles, names: seq<string>, n: nat): (r: set<string>)
    requires n <= |names|
    ensures forall x :: x in r <==> x in names[..n] && Stores(roles, layer, x)
  {
    set x | x in names[..n] && Stores(roles, layer, x)
  }

  lemma {:induction false} DescriptionCounts(roles: Roles, layer: Roles, names: seq<string>, n: nat)
    requires n <= |names| && NoDuplicates(names) && forall x :: x in names ==> x in layer
    ensures |DescriptionWarnings(roles, layer, names, n)| + |StoredAmong(roles, layer, names, n)| == n
  {
    if n > 0 {
      DescriptionCounts(roles, layer, names, n - 1);
      var before, name := StoredAmong(roles, layer, names, n - 1), names[n-1];
      assert names[..n] == names[..n-1] + [name];
      if Stores(roles, layer, name) {
        assert StoredAmong(roles, layer, names, n) == before + {name};
      } else {
        assert StoredAmong(roles, layer, names, n) == before;
      }
    }
  }

  /** The roles a layer stores when it is merged into the roles loaded before it. */
  ghost function Stored(before: Roles, layer: Layer): set<string>
  {
    set name | name in LayerRoles(layer).roles && Stores(before, LayerRoles(layer).roles, name)
  }

  lemma JoinedCount(declared: Roles, discovered: Roles, names: seq<string>)
    requires NoDuplicates(names) && forall x :: x in names <==> x in discovered
    ensures |discovered + declared| + |DuplicateWarnings(declared, names, |names|)| == |discovered| + |declared|
  {
    DuplicateCounts(declared, names, |names|);
    AllElements(names, discovered.Keys);
    JoinedKeys(declared, discovered);
  }

  lemma AllElements(names: seq<string>, keys: set<string>)
    requires forall x :: x in names <==> x in keys
    ensures Elements(names[..|names|]) == keys
  {
    assert names[..|names|] == names;
  }

  lemma JoinedKeys(declared: Roles, discovered: Roles)
    ensures |discovered + declared| + |declared.Keys * discovered.Keys| == |discovered| + |declared|
  {
    var joined := discovered + declared;
    assert joined.Keys == discovered.Keys + declared.Keys;
    UnionSize(discovered.Keys, declared.Keys);
    assert |joined| == |joined.Keys| && |declared| == |declared.Keys| && |discovered| == |discovered.Keys|;
  }

  lemma LayerRolesCount(layer: Layer)
    ensures var own := LayerRoles(layer);
      |own.roles| + |own.warnings|
      == |Entries(layer)| + Undeclared(DeclaredIn(layer).files, FoundFiles(layer), |FoundFiles(layer)|)
        + |Before(layer)|
  {
    var entries, found, declared := Entries(layer), FoundFiles(layer), DeclaredIn(layer);
    DeclareCounts(entries, |entries|, Before(layer));
    if layer.folder.Files? {
      DiscoverCounts(declared.files, found, |found|, declared.warnings);
      var discovered := Discover(declared.files, found, |found|, declared.warnings);
      JoinedCount(declared.roles, discovered.roles, SortedNames(discovered.roles.Keys));
    }
  }

  lemma StoredCounts(before: Roles, own: Roles, names: seq<string>)
    requires NoDuplicates(names) && forall x :: x in names <==> x in own
    ensures |DescriptionWarnings(before, own, names, |names|)| + |set x | x in own && Stores(before, own, x)| == |own|
  {
    DescriptionCounts(before, own, names, |names|);
    ElementsCount(names, |names|);
    assert names[..|names|] == names;
    assert Elements(names) == own.Keys;
    assert StoredAmong(before, own, names, |names|) == set x | x in own && Stores(before, own, x);
  }

  /** Every declared entry and every discovered file not already declared ends as a stored role or as
      a warning; an unreadable agents table adds one warning of its own. */
  lemma LayerConservation(layers: seq<Layer>, i: nat)
    requires i < |layers|
    ensures var layer, before := layers[i], MergeAll(OwnRoles(layers), i);
      |Entries(layer)| + Undeclared(DeclaredIn(layer).files, FoundFiles(layer), |FoundFiles(layer)|)
        + (if layer.table.Unreadable? then 1 else 0)
      == |Stored(before, layer)| + (|AllWarnings(OwnRoles(layers), i + 1)| - |AllWarnings(OwnRoles(layers), i)|)
  {
    var before, own := MergeAll(OwnRoles(layers), i), LayerRoles(layers[i]);
    LayerRolesCount(layers[i]);
    StoredCounts(before, own.roles, SortedNames(own.roles.Keys));
    assert OwnRoles(layers)[i] == own;
  }
}
