/** Loaded roles and warnings traced back to the raw entries and files of the layers. */
module AgentRoleSources {
  import opened Wrappers
  import opened AgentRoles
  import opened AgentRoleTheorems

  // ----- What an entry or a file defines

  ghost predicate NamesFile(e: Entry) { e.fields.Some? && e.fields.value.configFile.Some? }

  /** An entry cannot be used exactly when its fields, or the file it names, cannot be read. */
  ghost predicate Readable(e: Entry) { e.fields.Some? && (NamesFile(e) ==> e.file.Some?) }

  /** The file gives the name, and description and nicknames where it sets them; the rest is the entry's own. */
  ghost predicate EntryDefines(e: Entry, name: string, role: Role) {
    && Readable(e)
    && role.configFile == e.fields.value.configFile
    && (NamesFile(e) ==> name == e.file.value.name)
    && (!NamesFile(e) ==> name == e.declaredName)
    && (NamesFile(e) && e.file.value.description.Some? ==> role.description == e.file.value.description)
    && (!(NamesFile(e) && e.file.value.description.Some?) ==> role.description == e.fields.value.description)
    && (NamesFile(e) && e.file.value.nicknames.Some? ==> role.nicknames == e.file.value.nicknames)
    && (!(NamesFile(e) && e.file.value.nicknames.Some?) ==> role.nicknames == e.fields.value.nicknames)
  }

  ghost predicate FileDefines(f: Found, name: string, role: Role) {
    && f.file.Some? && name == f.file.value.name && role.configFile == Some(f.path)
    && role.description == f.file.value.description && role.nicknames == f.file.value.nicknames
  }

  lemma EntryReadIff(e: Entry, name: string, role: Role)
    ensures ReadDeclared(e) == Some((name, role)) <==> EntryDefines(e, name, role)
    ensures ReadDeclared(e).Some? <==> Readable(e)
  {
  }

  lemma FileReadIff(f: Found, name: string, role: Role)
    ensures ReadFound(f) == Some((name, role)) <==> FileDefines(f, name, role)
    ensures ReadFound(f).Some? <==> f.file.Some?
  {
  }

  ghost predicate EntryNamed(e: Entry, name: string) {
    Readable(e) && name == if NamesFile(e) then e.file.value.name else e.declaredName
  }

  lemma DeclaresIff(e: Entry, name: string)
    ensures Declares(e, name) <==> EntryNamed(e, name)
  {
  }

  // ----- What a layer defines

  /** The path of a role file some usable entry of the layer names. */
  ghost predicate Skipped(layer: Layer, path: Path) {
    exists i ::
      && 0 <= i < |Entries(layer)| && Readable(Entries(layer)[i])
      && Entries(layer)[i].fields.value.configFile == Some(path)
  }

  lemma {:induction false} FilesNoted(entries: seq<Entry>, n: nat, warnings: seq<Warning>, path: Path)
    requires n <= |entries|
    ensures path in Declare(entries, n, warnings).files
       <==> exists i :: 0 <= i < n && Readable(entries[i]) && entries[i].fields.value.configFile == Some(path)
  {
    if n > 0 { FilesNoted(entries, n - 1, warnings, path); }
  }

  /** The files not looked at in a layer's folder are exactly the config files of its usable entries. */
  lemma SkippedIff(layer: Layer, path: Path)
    ensures path in DeclaredIn(layer).files <==> Skipped(layer, path)
  {
    FilesNoted(Entries(layer), |Entries(layer)|, Before(layer), path);
  }

  ghost predicate FileNamed(layer: Layer, f: Found, name: string) {
    !Skipped(layer, f.path) && f.file.Some? && f.file.value.name == name
  }

  ghost predicate EntryThere(layer: Layer, name: string, n: nat)
    requires n <= |Entries(layer)|
  {
    exists i :: 0 <= i < n && EntryNamed(Entries(layer)[i], name)
  }

  ghost predicate FileThere(layer: Layer, name: string, n: nat)
    requires n <= |FoundFiles(layer)|
  {
    exists i :: 0 <= i < n && FileNamed(layer, FoundFiles(layer)[i], name)
  }

  /** The first usable entry of that name defines the role, or if there is none the first file. */
  ghost predicate LayerDefines(layer: Layer, name: string, role: Role) {
    var entries, found := Entries(layer), FoundFiles(layer);
    || (exists i :: 0 <= i < |entries| && EntryDefines(entries[i], name, role) && !EntryThere(layer, name, i))
    || (!EntryThere(layer, name, |entries|)
        && exists i :: 0 <= i < |found| && FileNamed(layer, found[i], name) && FileDefines(found[i], name, role)
                       && !FileThere(layer, name, i))
  }

  lemma FirstEntryIff(layer: Layer, name: string)
    ensures var entries := Entries(layer); var first := FirstEntry(entries, name, |entries|);
      && (first < |entries| <==> EntryThere(layer, name, |entries|))
      && (first < |entries| ==> EntryNamed(entries[first], name) && !EntryThere(layer, name, first))
  {
    var entries := Entries(layer);
    forall i | 0 <= i < |entries| ensures Declares(entries[i], name) <==> EntryNamed(entries[i], name) {
      DeclaresIff(entries[i], name);
    }
  }

  lemma FirstFileIff(layer: Layer, name: string)
    ensures var files, found := DeclaredIn(layer).files, FoundFiles(layer);
      var first := FirstFound(files, found, name, |found|);
      && (first < |found| <==> FileThere(layer, name, |found|))
      && (first < |found| ==> FileNamed(layer, found[first], name) && !FileThere(layer, name, first))
  {
    var files, found := DeclaredIn(layer).files, FoundFiles(layer);
    forall i | 0 <= i < |found| ensures Provides(files, found[i], name) <==> FileNamed(layer, found[i], name) {
      SkippedIff(layer, found[i].path);
    }
  }

  lemma OnlyFirstEntry(layer: Layer, name: string, i: nat, j: nat)
    requires i < |Entries(layer)| && j < |Entries(layer)|
    requires EntryNamed(Entries(layer)[i], name) && !EntryThere(layer, name, i)
    requires EntryNamed(Entries(layer)[j], name) && !EntryThere(layer, name, j)
    ensures i == j
  {
  }

  lemma OnlyFirstFile(layer: Layer, name: string, i: nat, j: nat)
    requires i < |FoundFiles(layer)| && j < |FoundFiles(layer)|
    requires FileNamed(layer, FoundFiles(layer)[i], name) && !FileThere(layer, name, i)
    requires FileNamed(layer, FoundFiles(layer)[j], name) && !FileThere(layer, name, j)
    ensures i == j
  {
  }

  ghost predicate Holds(roles: Roles, name: string, role: Role) { name in roles && roles[name] == role }

  /** A layer's own roles, told from its raw entries and files. */
  lemma LayerRoleIff(layer: Layer, name: string, role: Role)
    ensures Holds(LayerRoles(layer).roles, name, role) <==> LayerDefines(layer, name, role)
  {
    var entries, found := Entries(layer), FoundFiles(layer);
    var entry, file := FirstEntry(entries, name, |entries|),
                       FirstFound(DeclaredIn(layer).files, found, name, |found|);
    LayerRoleIsFirstDefinition(layer, name);
    FirstEntryIff(layer, name);
    FirstFileIff(layer, name);
    if entry < |entries| {
      EntryReadIff(entries[entry], name, role);
      if i :| 0 <= i < |entries| && EntryDefines(entries[i], name, role) && !EntryThere(layer, name, i) {
        OnlyFirstEntry(layer, name, i, entry);
      }
    } else if file < |found| {
      FileReadIff(found[file], name, role);
      if i :| 0 <= i < |found| && FileNamed(layer, found[i], name) && FileDefines(found[i], name, role)
              && !FileThere(layer, name, i) {
        OnlyFirstFile(layer, name, i, file);
      }
    }
  }

  // ----- What the layers together define

  function Lookup(roles: Roles, name: string): Option<Role> { if name in roles then Some(roles[name]) else None }

  /** What each layer defines a role as, if it does. */
  ghost predicate Traces(layers: seq<Layer>, name: string, defs: seq<Option<Role>>) {
    |defs| == |layers| && forall i :: 0 <= i < |layers| ==> TracesAt(layers[i], name, defs[i])
  }

  ghost predicate TracesAt(layer: Layer, name: string, def: Option<Role>) {
    forall role :: def == Some(role) <==> LayerDefines(layer, name, role)
  }

  /** The definitions are those of the layers' own roles. */
  ghost predicate Agrees(owns: seq<Discovered>, name: string, defs: seq<Option<Role>>) {
    |defs| == |owns| && forall i :: 0 <= i < |owns| ==> defs[i] == Lookup(owns[i].roles, name)
  }

  lemma TraceIsOwn(layer: Layer, name: string, def: Option<Role>)
    requires TracesAt(layer, name, def)
    ensures def == Lookup(LayerRoles(layer).roles, name)
  {
    var own := Lookup(LayerRoles(layer).roles, name);
    if own.Some? { LayerRoleIff(layer, name, own.value); }
    if def.Some? { LayerRoleIff(layer, name, def.value); }
  }

  lemma OwnIsTrace(layer: Layer, name: string)
    ensures TracesAt(layer, name, Lookup(LayerRoles(layer).roles, name))
  {
    var own := Lookup(LayerRoles(layer).roles, name);
    forall role ensures own == Some(role) <==> LayerDefines(layer, name, role) { LayerRoleIff(layer, name, role); }
  }

  lemma TracesAgree(layers: seq<Layer>, name: string, defs: seq<Option<Role>>)
    requires Traces(layers, name, defs)
    ensures Agrees(OwnRoles(layers), name, defs)
  {
    forall i | 0 <= i < |layers| ensures defs[i] == Lookup(OwnRoles(layers)[i].roles, name) {
      TraceIsOwn(layers[i], name, defs[i]);
    }
  }

  /** Every role has such a trace. */
  lemma TraceExists(layers: seq<Layer>, name: string) returns (defs: seq<Option<Role>>)
    ensures Traces(layers, name, defs)
  {
    defs := seq(|layers|, i requires 0 <= i < |layers| => Lookup(LayerRoles(layers[i]).roles, name));
    forall i | 0 <= i < |layers| ensures TracesAt(layers[i], name, defs[i]) { OwnIsTrace(layers[i], name); }
  }

  ghost predicate DescribedAt(defs: seq<Option<Role>>, i: nat)
    requires i < |defs|
  {
    defs[i].Some? && defs[i].value.description.Some?
  }

  /** Some layer up to this one describes the role. */
  ghost predicate Introduced(defs: seq<Option<Role>>, i: nat)
    requires i < |defs|
  {
    exists k :: 0 <= k <= i && DescribedAt(defs, k)
  }

  ghost predicate SetsAt<T(!new)>(defs: seq<Option<Role>>, i: nat, field: Role -> Option<T>)
    requires i < |defs|
  {
    defs[i].Some? && field(defs[i].value).Some?
  }

  /** The last of the first `n` definitions that sets the field. */
  ghost predicate SetsLast<T(!new)>(defs: seq<Option<Role>>, i: nat, n: nat, field: Role -> Option<T>)
    requires i < n <= |defs|
  {
    SetsAt(defs, i, field) && forall j :: i < j < n ==> !SetsAt(defs, j, field)
  }

  /** The value is the one of the highest layer that sets the field, no lower than the first that describes the role. */
  ghost predicate FieldFrom<T(!new)>(defs: seq<Option<Role>>, field: Role -> Option<T>, value: T) {
    exists i ::
      && 0 <= i < |defs| && SetsLast(defs, i, |defs|, field) && Introduced(defs, i)
      && field(defs[i].value) == Some(value)
  }

  lemma {:induction false} HighestIff<T(!new)>(
    owns: seq<Discovered>, name: string, defs: seq<Option<Role>>, field: Role -> Option<T>, lo: nat, n: nat, value: T)
    requires lo <= n <= |owns| && Agrees(owns, name, defs)
    ensures Highest(owns, name, field, lo, n) == Some(value)
       <==> exists i :: lo <= i < n && SetsLast(defs, i, n, field) && field(defs[i].value) == Some(value)
  {
    if n > lo {
      HighestIff(owns, name, defs, field, lo, n - 1, value);
      if SetsAt(defs, n - 1, field) {
        assert SetsLast(defs, n - 1, n, field);
      } else {
        forall i | lo <= i < n - 1 ensures SetsLast(defs, i, n - 1, field) <==> SetsLast(defs, i, n, field) {
          assert SetsLast(defs, i, n - 1, field) ==> forall j :: i < j < n ==> !SetsAt(defs, j, field);
        }
      }
    }
  }

  lemma FirstIntroduces(owns: seq<Discovered>, name: string, defs: seq<Option<Role>>, n: nat, i: nat)
    requires i < n <= |owns| && Agrees(owns, name, defs)
    ensures FirstDescribed(owns, name, n) <= i <==> Introduced(defs, i)
  {
    var first := FirstDescribed(owns, name, n);
    assert forall k :: 0 <= k < n ==> (Describes(owns, k, name) <==> DescribedAt(defs, k));
    if first <= i { assert DescribedAt(defs, first); }
  }

  lemma HighestIsFieldFrom<T(!new)>(
    owns: seq<Discovered>, name: string, defs: seq<Option<Role>>, field: Role -> Option<T>, value: T)
    requires Agrees(owns, name, defs)
    ensures Highest(owns, name, field, FirstDescribed(owns, name, |owns|), |owns|) == Some(value)
       <==> FieldFrom(defs, field, value)
  {
    var first := FirstDescribed(owns, name, |owns|);
    HighestIff(owns, name, defs, field, first, |owns|, value);
    forall i | 0 <= i < |owns| ensures first <= i <==> Introduced(defs, i) {
      FirstIntroduces(owns, name, defs, |owns|, i);
    }
  }

  ghost predicate FieldIs<T(!new)>(defs: seq<Option<Role>>, field: Role -> Option<T>, loaded: Option<T>) {
    forall value :: loaded == Some(value) <==> FieldFrom(defs, field, value)
  }

  lemma FieldTraced<T(!new)>(
    owns: seq<Discovered>, name: string, defs: seq<Option<Role>>, field: Role -> Option<T>, loaded: Option<T>)
    requires Agrees(owns, name, defs)
    requires loaded == Highest(owns, name, field, FirstDescribed(owns, name, |owns|), |owns|)
    ensures FieldIs(defs, field, loaded)
  {
    forall value ensures loaded == Some(value) <==> FieldFrom(defs, field, value) {
      HighestIsFieldFrom(owns, name, defs, field, value);
    }
  }

  lemma RoleTraced(owns: seq<Discovered>, name: string, defs: seq<Option<Role>>, roles: Roles)
    requires Agrees(owns, name, defs) && Resolved(owns, name, |owns|, roles)
    ensures name in roles <==> exists i :: 0 <= i < |defs| && DescribedAt(defs, i)
    ensures name in roles ==>
      && FieldIs(defs, Description(), roles[name].description)
      && FieldIs(defs, ConfigFile(), roles[name].configFile)
      && FieldIs(defs, Nicknames(), roles[name].nicknames)
  {
    assert forall k :: 0 <= k < |owns| ==> (Describes(owns, k, name) <==> DescribedAt(defs, k));
    if name in roles {
      FieldTraced(owns, name, defs, Description(), roles[name].description);
      FieldTraced(owns, name, defs, ConfigFile(), roles[name].configFile);
      FieldTraced(owns, name, defs, Nicknames(), roles[name].nicknames);
    }
  }

  /** A role is loaded exactly when some layer describes it, and each field holds exactly the value of the highest
      layer that sets it, where each layer defines the role by its raw entries and files. */
  lemma LoadedRoleIff(layers: seq<Layer>, name: string, defs: seq<Option<Role>>)
    requires Load(layers).Loaded? && Traces(layers, name, defs)
    ensures var roles := Load(layers).roles;
      && (name in roles <==> exists i :: 0 <= i < |defs| && DescribedAt(defs, i))
      && (name in roles ==>
            && FieldIs(defs, Description(), roles[name].description)
            && FieldIs(defs, ConfigFile(), roles[name].configFile)
            && FieldIs(defs, Nicknames(), roles[name].nicknames))
  {
    LoadedRoleResolvesFields(layers, name);
    TracesAgree(layers, name, defs);
    RoleTraced(OwnRoles(layers), name, defs, Load(layers).roles);
  }

  lemma {:induction false} FailsIff(layers: seq<Layer>, n: nat)
    requires n <= |layers|
    ensures ListingFails(layers, n) <==> exists i :: 0 <= i < n && layers[i].folder.ListingFailed?
  {
    if n > 0 { FailsIff(layers, n - 1); }
  }

  /** Loading fails exactly when some layer's folder cannot be listed. */
  lemma LoadFailsIff(layers: seq<Layer>)
    ensures Load(layers).LoadFailed? <==> exists i :: 0 <= i < |layers| && layers[i].folder.ListingFailed?
  {
    FailsIff(layers, |layers|);
  }

  // ----- Warnings

  ghost predicate EntryTwice(layer: Layer, name: string, n: nat)
    requires n <= |Entries(layer)|
  {
    exists k :: 0 <= k < n && EntryNamed(Entries(layer)[k], name) && EntryThere(layer, name, k)
  }

  ghost predicate FileTwice(layer: Layer, name: string, n: nat)
    requires n <= |FoundFiles(layer)|
  {
    exists k :: 0 <= k < n && FileNamed(layer, FoundFiles(layer)[k], name) && FileThere(layer, name, k)
  }

  ghost predicate BadEntryThere(layer: Layer, name: string, n: nat)
    requires n <= |Entries(layer)|
  {
    exists k :: 0 <= k < n && !Readable(Entries(layer)[k]) && Entries(layer)[k].declaredName == name
  }

  ghost predicate BadFileThere(layer: Layer, path: Path, n: nat)
    requires n <= |FoundFiles(layer)|
  {
    exists k ::
      && 0 <= k < n && FoundFiles(layer)[k].path == path && !Skipped(layer, path)
      && FoundFiles(layer)[k].file.None?
  }

  ghost predicate DeclaringWarns(layer: Layer, n: nat, w: Warning)
    requires n <= |Entries(layer)|
  {
    match w
    case UnreadableTable => layer.table.Unreadable?
    case BadEntry(name) => BadEntryThere(layer, name, n)
    case DuplicateInLayer(name) => EntryTwice(layer, name, n)
    case _ => false
  }

  ghost predicate DiscoveringWarns(layer: Layer, n: nat, w: Warning)
    requires n <= |FoundFiles(layer)|
  {
    match w
    case BadFile(path) => BadFileThere(layer, path, n)
    case DuplicateDiscovered(name) => FileTwice(layer, name, n)
    case _ => false
  }

  lemma DeclaredBefore(layer: Layer, n: nat, name: string)
    requires n <= |Entries(layer)|
    ensures name in Declare(Entries(layer), n, Before(layer)).roles <==> EntryThere(layer, name, n)
  {
    var entries := Entries(layer);
    FirstDeclarationWins(entries, name, n, Before(layer));
    forall i | 0 <= i < n ensures Declares(entries[i], name) <==> EntryNamed(entries[i], name) {
      DeclaresIff(entries[i], name);
    }
  }

  lemma {:induction false} DeclareWarnings(layer: Layer, n: nat, w: Warning)
    requires n <= |Entries(layer)|
    ensures w in Declare(Entries(layer), n, Before(layer)).warnings <==> DeclaringWarns(layer, n, w)
  {
    if n > 0 {
      DeclareWarnings(layer, n - 1, w);
      var e := Entries(layer)[n-1];
      if Readable(e) {
        DeclaredBefore(layer, n - 1, ReadDeclared(e).value.0);
        DeclaresIff(e, ReadDeclared(e).value.0);
      }
      DeclaringStep(layer, n, w);
    }
  }

  lemma DeclaringStep(layer: Layer, n: nat, w: Warning)
    requires 0 < n <= |Entries(layer)|
    ensures var e := Entries(layer)[n-1];
      DeclaringWarns(layer, n, w) <==>
      || DeclaringWarns(layer, n - 1, w)
      || (!Readable(e) && w == BadEntry(e.declaredName))
      || (w.DuplicateInLayer? && EntryNamed(e, w.name) && EntryThere(layer, w.name, n - 1))
  {
  }

  lemma DiscoveredBefore(layer: Layer, n: nat, name: string, warnings: seq<Warning>)
    requires n <= |FoundFiles(layer)|
    ensures name in Discover(DeclaredIn(layer).files, FoundFiles(layer), n, warnings).roles
       <==> FileThere(layer, name, n)
  {
    var files, found := DeclaredIn(layer).files, FoundFiles(layer);
    FirstFileWins(files, found, name, n, warnings);
    forall i | 0 <= i < n ensures Provides(files, found[i], name) <==> FileNamed(layer, found[i], name) {
      SkippedIff(layer, found[i].path);
    }
  }

  lemma DiscoveringStep(layer: Layer, n: nat, w: Warning)
    requires 0 < n <= |FoundFiles(layer)|
    ensures var f := FoundFiles(layer)[n-1];
      DiscoveringWarns(layer, n, w) <==>
      || DiscoveringWarns(layer, n - 1, w)
      || (!Skipped(layer, f.path) && f.file.None? && w == BadFile(f.path))
      || (w.DuplicateDiscovered? && FileNamed(layer, f, w.name) && FileThere(layer, w.name, n - 1))
  {
  }

  lemma {:induction false} DiscoverWarnings(layer: Layer, n: nat, warnings: seq<Warning>, w: Warning)
    requires n <= |FoundFiles(layer)|
    ensures w in Discover(DeclaredIn(layer).files, FoundFiles(layer), n, warnings).warnings
       <==> w in warnings || DiscoveringWarns(layer, n, w)
  {
    if n > 0 {
      DiscoverWarnings(layer, n - 1, warnings, w);
      var f := FoundFiles(layer)[n-1];
      SkippedIff(layer, f.path);
      if f.file.Some? { DiscoveredBefore(layer, n - 1, f.file.value.name, warnings); }
      DiscoveringStep(layer, n, w);
    }
  }

  lemma {:induction false} DuplicatesReported(declared: Roles, names: seq<string>, n: nat, w: Warning)
    requires n <= |names|
    ensures w in DuplicateWarnings(declared, names, n)
       <==> w.DuplicateInLayer? && w.name in declared && w.name in names[..n]
  {
    if n > 0 {
      DuplicatesReported(declared, names, n - 1, w);
      assert names[..n] == names[..n-1] + [names[n-1]];
    }
  }

  /** What a layer is warned about, but for missing descriptions. */
  ghost predicate OwnWarns(layer: Layer, w: Warning) {
    || DeclaringWarns(layer, |Entries(layer)|, w)
    || DiscoveringWarns(layer, |FoundFiles(layer)|, w)
    || (w.DuplicateInLayer? && EntryThere(layer, w.name, |Entries(layer)|)
        && FileThere(layer, w.name, |FoundFiles(layer)|))
  }

  lemma LayerWarned(layer: Layer, w: Warning)
    ensures w in LayerRoles(layer).warnings <==> OwnWarns(layer, w)
  {
    var declared, found := DeclaredIn(layer), FoundFiles(layer);
    DeclareWarnings(layer, |Entries(layer)|, w);
    DiscoverWarnings(layer, |found|, declared.warnings, w);
    var discovered := Discover(declared.files, found, |found|, declared.warnings);
    var names := SortedNames(discovered.roles.Keys);
    DuplicatesReported(declared.roles, names, |names|, w);
    assert names[..|names|] == names;
    if w.DuplicateInLayer? {
      DeclaredBefore(layer, |Entries(layer)|, w.name);
      DiscoveredBefore(layer, |found|, w.name, declared.warnings);
    }
  }

  lemma {:induction false} DescriptionsReported(roles: Roles, layer: Roles, names: seq<string>, n: nat, w: Warning)
    requires n <= |names|
    ensures w in DescriptionWarnings(roles, layer, names, n)
       <==> w.NoDescription? && w.name in names[..n] && !Stores(roles, layer, w.name)
  {
    if n > 0 {
      DescriptionsReported(roles, layer, names, n - 1, w);
      assert names[..n] == names[..n-1] + [names[n-1]];
    }
  }

  lemma StoredIff(owns: seq<Discovered>, name: string, defs: seq<Option<Role>>, i: nat)
    requires i < |owns| && Agrees(owns, name, defs) && defs[i].Some?
    ensures Stores(MergeAll(owns, i), owns[i].roles, name) <==> Introduced(defs, i)
  {
    MergeAllResolves(owns, name, i);
    assert Stores(MergeAll(owns, i), owns[i].roles, name)
      <==> FirstDescribed(owns, name, i) < i || Describes(owns, i, name);
    FirstIntroduces(owns, name, defs, i + 1, i);
  }

  /** The layer defines the role, and neither it nor a lower layer describes it. */
  ghost predicate LacksDescription(layers: seq<Layer>, i: nat, name: string)
    requires i < |layers|
  {
    && (exists role :: LayerDefines(layers[i], name, role))
    && forall k, role :: 0 <= k <= i && LayerDefines(layers[k], name, role) ==> role.description.None?
  }

  lemma LacksIff(layers: seq<Layer>, i: nat, name: string, defs: seq<Option<Role>>)
    requires i < |layers| && Traces(layers, name, defs)
    ensures LacksDescription(layers, i, name) <==> defs[i].Some? && !Introduced(defs, i)
  {
    assert TracesAt(layers[i], name, defs[i]);
    forall k | 0 <= k <= i
      ensures DescribedAt(defs, k) <==> exists role :: LayerDefines(layers[k], name, role) && role.description.Some?
    {
      assert TracesAt(layers[k], name, defs[k]);
    }
  }

  /** What loading warns about because of one layer: what is wrong with the layer itself, or a role it defines that
      has no description by then. */
  ghost predicate Warns(layers: seq<Layer>, i: nat, w: Warning)
    requires i < |layers|
  {
    OwnWarns(layers[i], w) || (w.NoDescription? && LacksDescription(layers, i, w.name))
  }

  lemma UndescribedWarned(layers: seq<Layer>, i: nat, name: string)
    requires i < |layers|
    ensures var owns := OwnRoles(layers);
      LacksDescription(layers, i, name)
      <==> name in owns[i].roles && !Stores(MergeAll(owns, i), owns[i].roles, name)
  {
    var defs := TraceExists(layers, name);
    TracesAgree(layers, name, defs);
    LacksIff(layers, i, name, defs);
    if defs[i].Some? { StoredIff(OwnRoles(layers), name, defs, i); }
  }

  lemma DescriptionsWarned(before: Roles, own: Roles, w: Warning)
    ensures var names := SortedNames(own.Keys);
      w in DescriptionWarnings(before, own, names, |names|)
      <==> w.NoDescription? && w.name in own && !Stores(before, own, w.name)
  {
    var names := SortedNames(own.Keys);
    DescriptionsReported(before, own, names, |names|, w);
    assert names[..|names|] == names;
  }

  lemma LayerWarnsIff(layers: seq<Layer>, i: nat, w: Warning)
    requires i < |layers|
    ensures w in LayerWarnings(MergeAll(OwnRoles(layers), i), OwnRoles(layers)[i]) <==> Warns(layers, i, w)
  {
    LayerWarned(layers[i], w);
    DescriptionsWarned(MergeAll(OwnRoles(layers), i), OwnRoles(layers)[i].roles, w);
    if w.NoDescription? { UndescribedWarned(layers, i, w.name); }
  }

  /** What a list built up piece by piece holds. */
  lemma {:induction false} InPieces(all: nat -> seq<Warning>, pieces: nat -> seq<Warning>, n: nat, w: Warning)
    requires all(0) == [] && forall k :: 0 <= k < n ==> all(k + 1) == all(k) + pieces(k)
    ensures w in all(n) <==> exists i :: 0 <= i < n && w in pieces(i)
  {
    if n > 0 {
      InPieces(all, pieces, n - 1, w);
      assert all(n - 1 + 1) == all(n - 1) + pieces(n - 1);
    }
  }

  ghost function Given(owns: seq<Discovered>): nat -> seq<Warning> {
    (n: nat) => if n <= |owns| then AllWarnings(owns, n) else []
  }

  ghost function Pieces(owns: seq<Discovered>): nat -> seq<Warning> {
    (i: nat) => if i < |owns| then LayerWarnings(MergeAll(owns, i), owns[i]) else []
  }

  lemma PieceGiven(owns: seq<Discovered>, k: nat)
    requires k < |owns|
    ensures Given(owns)(k + 1) == Given(owns)(k) + Pieces(owns)(k)
  {
  }

  lemma WarnedIff(layers: seq<Layer>, i: nat, w: Warning)
    requires i < |layers|
    ensures w in Pieces(OwnRoles(layers))(i) <==> Warns(layers, i, w)
  {
    LayerWarnsIff(layers, i, w);
  }

  /** A warning is given exactly when some layer deserves it. */
  lemma WarningGivenIff(layers: seq<Layer>, w: Warning)
    requires Load(layers).Loaded?
    ensures w in Load(layers).warnings <==> exists i :: 0 <= i < |layers| && Warns(layers, i, w)
  {
    var owns := OwnRoles(layers);
    var all, pieces := Given(owns), Pieces(owns);
    forall k | 0 <= k < |layers| ensures all(k + 1) == all(k) + pieces(k) { PieceGiven(owns, k); }
    InPieces(all, pieces, |layers|, w);
    forall i | 0 <= i < |layers| ensures w in pieces(i) <==> Warns(layers, i, w) { WarnedIff(layers, i, w); }
  }
}
