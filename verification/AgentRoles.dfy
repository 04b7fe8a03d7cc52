/** Loading agent roles from a stack of config layers, lowest layer first.

TOML decoding and file reading are outcomes: `None` is an entry or file that could not be read.
*/
module AgentRoles {
  import opened Wrappers
  import opened Sorting

  type Path = seq<string>

  datatype Role = Role(description: Option<string>, configFile: Option<Path>, nicknames: Option<seq<string>>)

  /** A parsed role file. */
  datatype RoleFile = RoleFile(name: string, description: Option<string>, nicknames: Option<seq<string>>)

  /** A declared entry: its own fields, and the outcome of reading its config file if it names one. */
  datatype Entry = Entry(declaredName: string, fields: Option<Role>, file: Option<RoleFile>)

  /** A discovered role file, in path order. */
  datatype Found = Found(path: Path, file: Option<RoleFile>)

  datatype AgentsTable = NoTable | Unreadable | Table(entries: seq<Entry>)

  datatype Folder = NoFolder | ListingFailed | Files(found: seq<Found>)

  datatype Layer = Layer(table: AgentsTable, folder: Folder)

  datatype Warning =
    | UnreadableTable
    | BadEntry(name: string)
    | DuplicateInLayer(name: string)
    | BadFile(path: Path)
    | DuplicateDiscovered(name: string)
    | NoDescription(name: string)

  type Roles = map<string, Role>

  // ----- One layer's own roles

  /** What an entry declares; its file may rename it and override description and nicknames. */
  function ReadDeclared(e: Entry): (r: Option<(string, Role)>) {
    if e.fields.None? then None
    else if e.fields.value.configFile.None? then Some((e.declaredName, e.fields.value))
    else if e.file.None? then None
    else Some((e.file.value.name,
               e.fields.value.(description := Or(e.file.value.description, e.fields.value.description),
                               nicknames := Or(e.file.value.nicknames, e.fields.value.nicknames))))
  }

  function ReadFound(f: Found): (r: Option<(string, Role)>) {
    if f.file.None? then None
    else Some((f.file.value.name, Role(f.file.value.description, Some(f.path), f.file.value.nicknames)))
  }

  datatype Declared = Declared(roles: Roles, files: set<Path>, warnings: seq<Warning>)

  function DeclareStep(acc: Declared, e: Entry): Declared {
    var read := ReadDeclared(e);
    if read.None? then acc.(warnings := acc.warnings + [BadEntry(e.declaredName)])
    else
      var (name, role) := read.value;
      var noted := acc.(files := if role.configFile.Some? then acc.files + {role.configFile.value} else acc.files);
      if name in acc.roles then noted.(warnings := noted.warnings + [DuplicateInLayer(name)])
      else noted.(roles := noted.roles[name := role])
  }

  function Declare(entries: seq<Entry>, n: nat, warnings: seq<Warning>): Declared
    requires n <= |entries|
  {
    if n == 0 then Declared(map[], {}, warnings) else DeclareStep(Declare(entries, n - 1, warnings), entries[n-1])
  }

  datatype Discovered = Discovered(roles: Roles, warnings: seq<Warning>)

  function DiscoverStep(files: set<Path>, acc: Discovered, f: Found): Discovered {
    if f.path in files then acc
    else
      var read := ReadFound(f);
      if read.None? then acc.(warnings := acc.warnings + [BadFile(f.path)])
      else if read.value.0 in acc.roles then acc.(warnings := acc.warnings + [DuplicateDiscovered(read.value.0)])
      else acc.(roles := acc.roles[read.value.0 := read.value.1])
  }

  function Discover(files: set<Path>, found: seq<Found>, n: nat, warnings: seq<Warning>): Discovered
    requires n <= |found|
  {
    if n == 0 then Discovered(map[], warnings)
      else DiscoverStep(files, Discover(files, found, n - 1, warnings), found[n-1])
  }

  function SortedNames(names: set<string>): (r: seq<string>)
    ensures NoDuplicates(r)
    ensures forall x :: x in r <==> x in names
  {
    StringOrder();
    SortSet(names, StringLe)
  }

  function DuplicateWarnings(declared: Roles, names: seq<string>, n: nat): seq<Warning>
    requires n <= |names|
  {
    if n == 0 then []
    else DuplicateWarnings(declared, names, n - 1) + if names[n-1] in declared then [DuplicateInLayer(names[n-1])]
      else []
  }

  /** A layer's roles and warnings: what it declares, then what it discovers and does not declare. */
  function LayerRoles(layer: Layer): (r: Discovered) {
    var before := if layer.table.Unreadable? then [UnreadableTable] else [];
    var entries := if layer.table.Table? then layer.table.entries else [];
    var declared := Declare(entries, |entries|, before);
    if !layer.folder.Files? then Discovered(declared.roles, declared.warnings)
    else
      var found := layer.folder.found;
      var discovered := Discover(declared.files, found, |found|, declared.warnings);
      var names := SortedNames(discovered.roles.Keys);
      Discovered(discovered.roles + declared.roles,
                 discovered.warnings + DuplicateWarnings(declared.roles, names, |names|))
  }

  // ----- Merging a layer into the roles loaded so far

  function MergeMissing(role: Role, fallback: Role): Role {
    Role(Or(role.description, fallback.description), Or(role.configFile, fallback.configFile),
      Or(role.nicknames, fallback.nicknames))
  }

  function MergedRole(roles: Roles, layer: Roles, name: string): Role
    requires name in layer
  {
    if name in roles then MergeMissing(layer[name], roles[name]) else layer[name]
  }

  predicate Stores(roles: Roles, layer: Roles, name: string) {
    name in layer && MergedRole(roles, layer, name).description.Some?
  }

  function MergeLayer(roles: Roles, layer: Roles): Roles {
    map name | name in roles.Keys + layer.Keys && (name in roles || Stores(roles, layer, name)) ::
      if Stores(roles, layer, name) then MergedRole(roles, layer, name) else roles[name]
  }

  function DescriptionWarnings(roles: Roles, layer: Roles, names: seq<string>, n: nat): seq<Warning>
    requires n <= |names|
  {
    if n == 0 then []
    else DescriptionWarnings(roles, layer, names, n - 1) + if Stores(roles, layer, names[n-1]) then []
      else [NoDescription(names[n-1])]
  }

  /** What each layer itself defines and complains about. */
  function OwnRoles(layers: seq<Layer>): (r: seq<Discovered>)
    ensures |r| == |layers| && forall i :: 0 <= i < |layers| ==> r[i] == LayerRoles(layers[i])
  {
    seq(|layers|, i requires 0 <= i < |layers| => LayerRoles(layers[i]))
  }

  function MergeAll(owns: seq<Discovered>, n: nat): Roles
    requires n <= |owns|
  {
    if n == 0 then map[] else MergeLayer(MergeAll(owns, n - 1), owns[n-1].roles)
  }

  function LayerWarnings(before: Roles, own: Discovered): seq<Warning> {
    var names := SortedNames(own.roles.Keys);
    own.warnings + DescriptionWarnings(before, own.roles, names, |names|)
  }

  function AllWarnings(owns: seq<Discovered>, n: nat): seq<Warning>
    requires n <= |owns|
  {
    if n == 0 then [] else AllWarnings(owns, n - 1) + LayerWarnings(MergeAll(owns, n - 1), owns[n-1])
  }

  datatype Loaded = LoadFailed | Loaded(roles: Roles, warnings: seq<Warning>)

  /** One of the first `n` layers has a directory that cannot be listed. */
  predicate ListingFails(layers: seq<Layer>, n: nat)
    requires n <= |layers|
  {
    n > 0 && (ListingFails(layers, n - 1) || layers[n-1].folder.ListingFailed?)
  }

  lemma {:induction false} ListingFailureSticks(layers: seq<Layer>, n: nat, m: nat)
    requires n <= m <= |layers| && ListingFails(layers, n)
    ensures ListingFails(layers, m)
    decreases m
  {
    if n < m { ListingFailureSticks(layers, n, m - 1); }
  }

  /** The roles and warnings of a stack of layers, lowest first. */
  function Load(layers: seq<Layer>): Loaded {
    if ListingFails(layers, |layers|) then LoadFailed
    else Loaded(MergeAll(OwnRoles(layers), |layers|), AllWarnings(OwnRoles(layers), |layers|))
  }

  // ----- The loader's loops

  method DeclareRoles(
    entries: seq<Entry>, start: seq<Warning>) returns (roles: Roles, files: set<Path>, warnings: seq<Warning>)
    ensures Declared(roles, files, warnings) == Declare(entries, |entries|, start)
  {
    roles, files, warnings := map[], {}, start;
    for i := 0 to |entries|
      invariant Declared(roles, files, warnings) == Declare(entries, i, start)
    {
      var read := ReadDeclared(entries[i]);
      if read.None? {
        warnings := warnings + [BadEntry(entries[i].declaredName)];
        continue;
      }
      var (name, role) := read.value;
      if role.configFile.Some? {
        files := files + {role.configFile.value};
      }
      if name in roles {
        warnings := warnings + [DuplicateInLayer(name)];
        continue;
      }
      roles := roles[name := role];
    }
  }

  method DiscoverRoles(
    files: set<Path>, found: seq<Found>, start: seq<Warning>) returns (roles: Roles, warnings: seq<Warning>)
    ensures Discovered(roles, warnings) == Discover(files, found, |found|, start)
  {
    roles, warnings := map[], start;
    for i := 0 to |found|
      invariant Discovered(roles, warnings) == Discover(files, found, i, start)
    {
      if found[i].path in files { continue; }
      var read := ReadFound(found[i]);
      if read.None? {
        warnings := warnings + [BadFile(found[i].path)];
        continue;
      }
      var (name, role) := read.value;
      if name in roles {
        warnings := warnings + [DuplicateDiscovered(name)];
        continue;
      }
      roles := roles[name := role];
    }
  }

  function AddNames(declared: Roles, discovered: Roles, names: seq<string>, n: nat): Roles
    requires n <= |names| && forall x :: x in names ==> x in discovered
  {
    if n == 0 then declared
    else
      var before, name := AddNames(declared, discovered, names, n - 1), names[n-1];
      if name in declared then before else before[name := discovered[name]]
  }

  lemma {:induction false} AddNamesAt(declared: Roles, discovered: Roles, names: seq<string>, n: nat, x: string)
    requires n <= |names| && NoDuplicates(names) && forall x :: x in names ==> x in discovered
    ensures var roles := AddNames(declared, discovered, names, n);
      && (x in roles <==> x in declared || x in names[..n])
      && (x in roles ==> roles[x] == if x in declared then declared[x] else discovered[x])
  {
    if n > 0 {
      AddNamesAt(declared, discovered, names, n - 1, x);
      assert names[..n] == names[..n-1] + [names[n-1]];
    }
  }

  lemma AddNamesAll(declared: Roles, discovered: Roles, names: seq<string>)
    requires NoDuplicates(names) && forall x :: x in names <==> x in discovered
    ensures AddNames(declared, discovered, names, |names|) == discovered + declared
  {
    var roles := AddNames(declared, discovered, names, |names|);
    assert names[..|names|] == names;
    forall x
      ensures x in roles <==> x in discovered + declared
      ensures x in roles ==> roles[x] == (discovered + declared)[x]
    {
      AddNamesAt(declared, discovered, names, |names|, x);
    }
  }

  method AddDiscovered(
    declared: Roles, discovered: Roles, names: seq<string>) returns (roles: Roles, warnings: seq<Warning>)
    requires NoDuplicates(names) && forall x :: x in names <==> x in discovered
    ensures roles == discovered + declared
    ensures warnings == DuplicateWarnings(declared, names, |names|)
  {
    roles, warnings := declared, [];
    for i := 0 to |names|
      invariant roles == AddNames(declared, discovered, names, i)
      invariant warnings == DuplicateWarnings(declared, names, i)
    {
      var name := names[i];
      AddNamesAt(declared, discovered, names, i, name);
      assert name !in names[..i];
      if name in roles {
        warnings := warnings + [DuplicateInLayer(name)];
        continue;
      }
      roles := roles[name := discovered[name]];
    }
    AddNamesAll(declared, discovered, names);
  }

  function MergeNames(before: Roles, layer: Roles, names: seq<string>, n: nat): Roles
    requires n <= |names|
  {
    if n == 0 then before
    else
      var roles, name := MergeNames(before, layer, names, n - 1), names[n-1];
      if Stores(before, layer, name) then roles[name := MergedRole(before, layer, name)] else roles
  }

  lemma {:induction false} MergeNamesAt(before: Roles, layer: Roles, names: seq<string>, n: nat, x: string)
    requires n <= |names| && NoDuplicates(names)
    ensures var roles := MergeNames(before, layer, names, n);
      var stored := x in names[..n] && Stores(before, layer, x);
      && (x in roles <==> x in before || stored)
      && (x in roles ==> roles[x] == if stored then MergedRole(before, layer, x) else before[x])
  {
    if n > 0 {
      MergeNamesAt(before, layer, names, n - 1, x);
      assert names[..n] == names[..n-1] + [names[n-1]];
    }
  }

  lemma MergeNamesAll(before: Roles, layer: Roles, names: seq<string>)
    requires NoDuplicates(names) && forall x :: x in names <==> x in layer
    ensures MergeNames(before, layer, names, |names|) == MergeLayer(before, layer)
  {
    var roles := MergeNames(before, layer, names, |names|);
    assert names[..|names|] == names;
    forall x
      ensures x in roles <==> x in MergeLayer(before, layer)
      ensures x in roles ==> roles[x] == MergeLayer(before, layer)[x]
    {
      MergeNamesAt(before, layer, names, |names|, x);
    }
  }

  method MergeRoles(before: Roles, layer: Roles, names: seq<string>) returns (roles: Roles, warnings: seq<Warning>)
    requires NoDuplicates(names) && forall x :: x in names <==> x in layer
    ensures roles == MergeLayer(before, layer)
    ensures warnings == DescriptionWarnings(before, layer, names, |names|)
  {
    roles, warnings := before, [];
    for i := 0 to |names|
      invariant roles == MergeNames(before, layer, names, i)
      invariant warnings == DescriptionWarnings(before, layer, names, i)
    {
      var name := names[i];
      MergeNamesAt(before, layer, names, i, name);
      assert name !in names[..i];
      var merged := layer[name];
      if name in roles {
        merged := MergeMissing(merged, roles[name]);
      }
      if merged.description.None? {
        warnings := warnings + [NoDescription(name)];
        continue;
      }
      roles := roles[name := merged];
    }
    MergeNamesAll(before, layer, names);
  }

  method ReadLayer(layer: Layer) returns (own: Roles, warnings: seq<Warning>)
    requires !layer.folder.ListingFailed?
    ensures Discovered(own, warnings) == LayerRoles(layer)
  {
    var start := if layer.table.Unreadable? then [UnreadableTable] else [];
    var entries := if layer.table.Table? then layer.table.entries else [];
    var files;
    own, files, warnings := DeclareRoles(entries, start);
    if layer.folder.Files? {
      var discovered, more := DiscoverRoles(files, layer.folder.found, warnings);
      var duplicates;
      own, duplicates := AddDiscovered(own, discovered, SortedNames(discovered.Keys));
      warnings := more + duplicates;
    }
  }

  method AddLayer(before: Roles, layer: Layer) returns (roles: Roles, warnings: seq<Warning>)
    requires !layer.folder.ListingFailed?
    ensures roles == MergeLayer(before, LayerRoles(layer).roles)
    ensures warnings == LayerWarnings(before, LayerRoles(layer))
  {
    var own, notes := ReadLayer(layer);
    var late;
    roles, late := MergeRoles(before, own, SortedNames(own.Keys));
    warnings := notes + late;
  }

  method LoadAgentRoles(layers: seq<Layer>) returns (r: Loaded)
    ensures r == Load(layers)
  {
    ghost var owns := OwnRoles(layers);
    var roles: Roles, warnings: seq<Warning> := map[], [];
    for i := 0 to |layers|
      invariant !ListingFails(layers, i)
      invariant roles == MergeAll(owns, i) && warnings == AllWarnings(owns, i)
    {
      if layers[i].folder.ListingFailed? {
        ListingFailureSticks(layers, i + 1, |layers|);
        return LoadFailed;
      }
      assert owns[i] == LayerRoles(layers[i]);
      var notes;
      roles, notes := AddLayer(roles, layers[i]);
      warnings := warnings + notes;
    }
    return Loaded(roles, warnings);
  }
}
