/** Finding role files: a stack-driven walk over a directory tree.

A directory is what reading it gives: its entries in some order, nothing when it is missing, or an
error. Paths are sequences of components, ordered component by component.
*/
module RoleFiles {
  import opened Wrappers
  import opened Sorting

  type Path = seq<string>

  datatype Kind = IsFile | IsDir(dir: Dir) | IsSpecial

  datatype Entry = Entry(name: string, kind: Kind)

  datatype Dir = Listed(entries: seq<Entry>) | Missing | Unreadable

  /** The file name has a stem and the extension `toml`. */
  predicate IsToml(name: string) {
    |name| > 5 && name[|name|-5..] == ".toml"
  }

  lemma IsTomlIff(name: string)
    ensures IsToml(name) <==> exists stem: string :: stem != "" && name == stem + ".toml"
  {
    if IsToml(name) { assert name == name[..|name|-5] + ".toml"; }
    if stem: string :| stem != "" && name == stem + ".toml" { assert name[|name|-5..] == ".toml"; }
  }

  // ----- What is in a tree

  /** `p` is the path, relative to `d`, of a role file that can be reached. */
  ghost predicate FileAt(d: Dir, p: Path)
    decreases |p|
  {
    && d.Listed? && |p| > 0
    && exists i :: 0 <= i < |d.entries| && EntryAt(d.entries[i], p)
  }

  ghost predicate EntryAt(e: Entry, p: Path)
    requires |p| > 0
    decreases |p|, 0
  {
    && e.name == p[0]
    && if |p| == 1 then e.kind.IsFile? && IsToml(e.name) else e.kind.IsDir? && FileAt(e.kind.dir, p[1..])
  }

  /** All role files under a directory, in listing order. */
  function FilesOf(path: Path, d: Dir): seq<Path>
    decreases d, 1
  {
    if d.Listed? then FilesOfEntries(path, d.entries) else []
  }

  function FilesOfEntries(path: Path, entries: seq<Entry>): seq<Path>
    decreases entries, 0
  {
    if entries == [] then []
    else FilesOfEntry(path, entries[0]) + FilesOfEntries(path, entries[1..])
  }

  function FilesOfEntry(path: Path, e: Entry): seq<Path>
    decreases e, 2
  {
    match e.kind
    case IsDir(sub) => FilesOf(path + [e.name], sub)
    case IsFile => if IsToml(e.name) then [path + [e.name]] else []
    case IsSpecial => []
  }

  predicate HasUnreadable(d: Dir)
    decreases d, 1
  {
    d.Unreadable? || (d.Listed? && EntriesUnreadable(d.entries))
  }

  predicate EntriesUnreadable(entries: seq<Entry>)
    decreases entries, 0
  {
    entries != [] && (EntryUnreadable(entries[0]) || EntriesUnreadable(entries[1..]))
  }

  predicate EntryUnreadable(e: Entry)
    decreases e, 2
  {
    e.kind.IsDir? && HasUnreadable(e.kind.dir)
  }

  /** Names within each directory are distinct, as a file system guarantees. */
  ghost predicate DistinctNames(d: Dir)
    decreases d, 1
  {
    d.Listed? ==> DistinctEntries(d.entries)
  }

  ghost predicate DistinctEntries(entries: seq<Entry>)
    decreases entries, 0
  {
    entries != [] ==>
      && (forall i :: 1 <= i < |entries| ==> entries[i].name != entries[0].name)
      && (entries[0].kind.IsDir? ==> DistinctNames(entries[0].kind.dir))
      && DistinctEntries(entries[1..])
  }

  // ----- The walk

  datatype Item = Item(path: Path, dir: Dir)

  function Size(d: Dir): nat
    decreases d, 1
  {
    1 + if d.Listed? then EntriesSize(d.entries) else 0
  }

  function EntriesSize(entries: seq<Entry>): nat
    decreases entries, 0
  {
    if entries == [] then 0
    else (if entries[0].kind.IsDir? then Size(entries[0].kind.dir) else 0) + EntriesSize(entries[1..])
  }

  function StackSize(dirs: seq<Item>): nat {
    if dirs == [] then 0 else StackSize(dirs[..|dirs|-1]) + Size(dirs[|dirs|-1].dir)
  }

  function StackFiles(dirs: seq<Item>): multiset<Path> {
    if dirs == [] then multiset{}
    else StackFiles(dirs[..|dirs|-1]) + multiset(FilesOf(dirs[|dirs|-1].path, dirs[|dirs|-1].dir))
  }

  predicate StackUnreadable(dirs: seq<Item>) {
    dirs != [] && (StackUnreadable(dirs[..|dirs|-1]) || HasUnreadable(dirs[|dirs|-1].dir))
  }

  lemma Push(dirs: seq<Item>, item: Item)
    ensures StackSize(dirs + [item]) == StackSize(dirs) + Size(item.dir)
    ensures StackFiles(dirs + [item]) == StackFiles(dirs) + multiset(FilesOf(item.path, item.dir))
    ensures StackUnreadable(dirs + [item]) <==> StackUnreadable(dirs) || HasUnreadable(item.dir)
  {
    var pushed := dirs + [item];
    assert pushed[..|pushed|-1] == dirs && pushed[|pushed|-1] == item;
  }

  /** Nothing is lost between the files already found and the directories still to be read. */
  ghost predicate Walking(files: seq<Path>, dirs: seq<Item>, all: multiset<Path>, unreadable: bool) {
    multiset(files) + StackFiles(dirs) == all && (StackUnreadable(dirs) <==> unreadable)
  }

  lemma StartWalk(item: Item)
    ensures Walking([], [item], multiset(FilesOf(item.path, item.dir)), HasUnreadable(item.dir))
  {
    Push([], item);
    assert [] + [item] == [item];
  }

  lemma Pop(files: seq<Path>, dirs: seq<Item>, all: multiset<Path>, unreadable: bool)
    requires dirs != [] && Walking(files, dirs, all, unreadable)
    ensures var rest, item := dirs[..|dirs|-1], dirs[|dirs|-1];
      && StackSize(rest) < StackSize(dirs)
      && (item.dir.Missing? ==> Walking(files, rest, all, unreadable))
      && (item.dir.Unreadable? ==> unreadable)
      && (item.dir.Listed? ==> Conserves(item.path, item.dir.entries, files, rest, all, unreadable,
        StackSize(dirs) - 1))
  {
  }

  method CollectAgentRoleFiles(base: Path, root: Dir) returns (r: Option<seq<Path>>)
    ensures r.None? <==> HasUnreadable(root)
    ensures r.Some? ==> multiset(r.value) == multiset(FilesOf(base, root)) && Sorted(r.value, KeyLe)
    ensures WalkReturns(base, root, r)
  {
    var files: seq<Path> := [];
    var dirs := [Item(base, root)];
    ghost var all, unreadable := multiset(FilesOf(base, root)), HasUnreadable(root);
    StartWalk(dirs[0]);
    while dirs != []
      invariant Walking(files, dirs, all, unreadable)
      decreases StackSize(dirs)
    {
      var item := dirs[|dirs|-1];
      ghost var size := StackSize(dirs);
      Pop(files, dirs, all, unreadable);
      dirs := dirs[..|dirs|-1];
      if item.dir.Missing? { continue; }
      if item.dir.Unreadable? { return None; }
      files, dirs := ReadEntries(item.path, item.dir.entries, files, dirs, all, unreadable, size - 1);
    }
    files := SortFiles(files);
    return Some(files);
  }

  method SortFiles(files: seq<Path>) returns (sorted: seq<Path>)
    ensures multiset(sorted) == multiset(files) && Sorted(sorted, KeyLe)
  {
    KeyOrder();
    SortSeqSorted(files, KeyLe);
    sorted := SortSeq(files, KeyLe);
  }

  /** What is still to come: the files of the stack and of the entries not yet looked at. */
  ghost predicate Conserves(
    path: Path, left: seq<Entry>, files: seq<Path>, dirs: seq<Item>, all: multiset<Path>, unreadable: bool, size: nat) {
    && multiset(files) + StackFiles(dirs) + multiset(FilesOfEntries(path, left)) == all
    && (StackUnreadable(dirs) || EntriesUnreadable(left) <==> unreadable)
    && StackSize(dirs) + EntriesSize(left) == size
  }

  lemma OneDir(
    path: Path, left: seq<Entry>, files: seq<Path>, dirs: seq<Item>, all: multiset<Path>, unreadable: bool, size: nat)
    requires left != [] && left[0].kind.IsDir? && Conserves(path, left, files, dirs, all, unreadable, size)
    ensures Conserves(path, left[1..], files, dirs + [Item(path + [left[0].name], left[0].kind.dir)], all, unreadable,
      size)
  {
    var e := left[0];
    Push(dirs, Item(path + [e.name], e.kind.dir));
    assert EntriesUnreadable(left) <==> EntryUnreadable(e) || EntriesUnreadable(left[1..]);
    assert multiset(FilesOfEntries(path, left))
      == multiset(FilesOf(path + [e.name], e.kind.dir)) + multiset(FilesOfEntries(path, left[1..]));
  }

  lemma OneFile(
    path: Path, left: seq<Entry>, files: seq<Path>, dirs: seq<Item>, all: multiset<Path>, unreadable: bool, size: nat)
    requires left != [] && !left[0].kind.IsDir? && Conserves(path, left, files, dirs, all, unreadable, size)
    ensures Conserves(path, left[1..], files + FilesOfEntry(path, left[0]), dirs, all, unreadable, size)
  {
    var e := left[0];
    assert EntriesUnreadable(left) <==> EntriesUnreadable(left[1..]);
    assert multiset(FilesOfEntries(path, left))
      == multiset(FilesOfEntry(path, e)) + multiset(FilesOfEntries(path, left[1..]));
  }

  method ReadEntries(path: Path, entries: seq<Entry>, files0: seq<Path>, dirs0: seq<Item>,
                     ghost all: multiset<Path>, ghost unreadable: bool, ghost size: nat)
    returns (files: seq<Path>, dirs: seq<Item>)
    requires Conserves(path, entries, files0, dirs0, all, unreadable, size)
    ensures Walking(files, dirs, all, unreadable) && StackSize(dirs) == size
  {
    files, dirs := files0, dirs0;
    assert entries[0..] == entries;
    for i := 0 to |entries|
      invariant Conserves(path, entries[i..], files, dirs, all, unreadable, size)
    {
      var e := entries[i];
      assert entries[i..][0] == e && entries[i..][1..] == entries[i+1..];
      var p := path + [e.name];
      if e.kind.IsDir? {
        OneDir(path, entries[i..], files, dirs, all, unreadable, size);
        dirs := dirs + [Item(p, e.kind.dir)];
        continue;
      }
      OneFile(path, entries[i..], files, dirs, all, unreadable, size);
      if e.kind.IsFile? && IsToml(e.name) {
        files := files + [p];
      } else {
        assert files + FilesOfEntry(path, e) == files;
      }
    }
    assert entries[|entries|..] == [];
  }

  // ----- The files listed are exactly the files there are

  lemma {:induction false} ListedIffThere(path: Path, d: Dir, p: Path)
    ensures p in FilesOf(path, d) <==> path <= p && FileAt(d, p[|path|..])
    decreases d, 1
  {
    if d.Listed? {
      EntriesListedIffThere(path, d.entries, p);
    }
  }

  lemma {:induction false} EntriesListedIffThere(path: Path, entries: seq<Entry>, p: Path)
    ensures p in FilesOfEntries(path, entries)
       <==> path < p && exists i :: 0 <= i < |entries| && EntryAt(entries[i], p[|path|..])
    decreases entries, 0
  {
    if entries != [] {
      EntryListedIffThere(path, entries[0], p);
      EntriesListedIffThere(path, entries[1..], p);
      if path < p {
        var q := p[|path|..];
        assert (exists i :: 0 <= i < |entries| && EntryAt(entries[i], q))
          <==> EntryAt(entries[0], q) || exists i :: 0 <= i < |entries[1..]| && EntryAt(entries[1..][i], q) by {
          if i :| 0 <= i < |entries| && EntryAt(entries[i], q) {
            assert i == 0 || EntryAt(entries[1..][i-1], q);
          }
        }
      }
    }
  }

  lemma {:induction false} EntryListedIffThere(path: Path, e: Entry, p: Path)
    ensures p in FilesOfEntry(path, e) <==> path < p && EntryAt(e, p[|path|..])
    decreases e, 2
  {
    var here := path + [e.name];
    if e.kind.IsDir? {
      ListedIffThere(here, e.kind.dir, p);
      assert here <= p <==> path < p && p[|path|] == e.name;
      if here <= p {
        assert p[|here|..] == p[|path|..][1..];
      }
    } else if e.kind.IsFile? && path < p {
      assert p == here <==> p[|path|..] == [e.name];
    }
  }

  lemma {:induction false} FilesAreDistinct(path: Path, d: Dir)
    requires DistinctNames(d)
    ensures NoDuplicates(FilesOf(path, d))
    decreases d, 1
  {
    if d.Listed? { EntryFilesAreDistinct(path, d.entries); }
  }

  lemma {:induction false} EntryFilesAreDistinct(path: Path, entries: seq<Entry>)
    requires DistinctEntries(entries)
    ensures NoDuplicates(FilesOfEntries(path, entries))
    decreases entries, 0
  {
    if entries != [] {
      EntryFilesAreDistinct(path, entries[1..]);
      var e, first, rest := entries[0], FilesOfEntry(path, entries[0]), FilesOfEntries(path, entries[1..]);
      if e.kind.IsDir? { FilesAreDistinct(path + [e.name], e.kind.dir); }
      forall i, j | 0 <= i < |first| && 0 <= j < |rest| ensures first[i] != rest[j] {
        assert first[i] in first && rest[j] in rest;
        EntryListedIffThere(path, e, first[i]);
        EntriesListedIffThere(path, entries[1..], rest[j]);
      }
    }
  }

  /** What the walk returns, told without the walk: each role file once and nothing else, in
      ascending order of the path components. */
  lemma WalkResult(base: Path, root: Dir, out: seq<Path>)
    requires multiset(out) == multiset(FilesOf(base, root)) && Sorted(out, KeyLe) && DistinctNames(root)
    ensures forall p :: p in out <==> base <= p && FileAt(root, p[|base|..])
    ensures NoDuplicates(out)
    ensures forall i, j :: 0 <= i < j < |out| ==> KeyBefore(out[i], out[j])
  {
    var files := FilesOf(base, root);
    SameMembers(out, files);
    forall p ensures p in out <==> base <= p && FileAt(root, p[|base|..]) {
      ListedIffThere(base, root, p);
    }
    FilesAreDistinct(base, root);
    SameMultisetDistinct(files, out);
    forall i, j | 0 <= i < j < |out| ensures KeyBefore(out[i], out[j]) { KeyLeIff(out[i], out[j]); }
  }

  lemma {:induction false} CountOfDistinct(s: seq<Path>, x: Path)
    requires NoDuplicates(s)
    ensures multiset(s)[x] <= 1
  {
    if s != [] {
      CountOfDistinct(s[1..], x);
      assert s == [s[0]] + s[1..];
      assert x == s[0] ==> x !in s[1..];
    }
  }

  lemma {:induction false} DistinctIfCountsAtMostOne(s: seq<Path>)
    requires forall x :: multiset(s)[x] <= 1
    ensures NoDuplicates(s)
  {
    if s != [] {
      assert s == [s[0]] + s[1..];
      assert multiset(s) == multiset{s[0]} + multiset(s[1..]);
      forall x ensures multiset(s[1..])[x] <= 1 {
        assert multiset(s)[x] == multiset{s[0]}[x] + multiset(s[1..])[x];
      }
      assert multiset(s)[s[0]] == 1 + multiset(s[1..])[s[0]];
      assert s[0] !in multiset(s[1..]);
      DistinctIfCountsAtMostOne(s[1..]);
    }
  }

  lemma SameMultisetDistinct(a: seq<Path>, b: seq<Path>)
    requires multiset(a) == multiset(b) && NoDuplicates(a)
    ensures NoDuplicates(b)
  {
    forall x ensures multiset(b)[x] <= 1 { CountOfDistinct(a, x); }
    DistinctIfCountsAtMostOne(b);
  }

  // ----- The listing order does not matter

  /** The same tree up to the order in which directories list their entries. */
  ghost predicate Reordered(a: Dir, b: Dir)
    decreases a, 3
  {
    match a
    case Missing => b.Missing?
    case Unreadable => b.Unreadable?
    case Listed(entries) =>
      && b.Listed?
      && (forall e :: e in entries ==> ListedThere(e, b.entries))
      && (forall f :: f in b.entries ==> ListedHere(entries, f))
  }

  ghost predicate ListedThere(e: Entry, others: seq<Entry>)
    decreases e, 1
  {
    exists j :: 0 <= j < |others| && SameEntry(e, others[j])
  }

  ghost predicate ListedHere(entries: seq<Entry>, f: Entry)
    decreases entries, 2
  {
    exists i :: 0 <= i < |entries| && SameEntry(entries[i], f)
  }

  ghost predicate SameEntry(a: Entry, b: Entry)
    decreases a, 0
  {
    && a.name == b.name
    && match a.kind
       case IsFile => b.kind.IsFile?
       case IsSpecial => b.kind.IsSpecial?
       case IsDir(d) => b.kind.IsDir? && Reordered(d, b.kind.dir)
  }

  lemma Counterpart(a: Dir, b: Dir, i: nat) returns (j: nat)
    requires Reordered(a, b) && a.Listed? && i < |a.entries|
    ensures b.Listed? && j < |b.entries| && SameEntry(a.entries[i], b.entries[j])
  {
    assert ListedThere(a.entries[i], b.entries);
    j :| 0 <= j < |b.entries| && SameEntry(a.entries[i], b.entries[j]);
  }

  lemma CounterpartBack(a: Dir, b: Dir, j: nat) returns (i: nat)
    requires Reordered(a, b) && b.Listed? && j < |b.entries|
    ensures a.Listed? && i < |a.entries| && SameEntry(a.entries[i], b.entries[j])
  {
    assert ListedHere(a.entries, b.entries[j]);
    i :| 0 <= i < |a.entries| && SameEntry(a.entries[i], b.entries[j]);
  }

  lemma {:induction false} ReorderedFiles(a: Dir, b: Dir, p: Path)
    requires Reordered(a, b)
    ensures FileAt(a, p) <==> FileAt(b, p)
    decreases |p|, 1
  {
    if FileAt(a, p) {
      var i :| 0 <= i < |a.entries| && EntryAt(a.entries[i], p);
      var j := Counterpart(a, b, i);
      SameEntryFiles(a.entries[i], b.entries[j], p);
    }
    if FileAt(b, p) {
      var j :| 0 <= j < |b.entries| && EntryAt(b.entries[j], p);
      var i := CounterpartBack(a, b, j);
      SameEntryFiles(a.entries[i], b.entries[j], p);
    }
  }

  lemma {:induction false} SameEntryFiles(e: Entry, f: Entry, p: Path)
    requires SameEntry(e, f) && |p| > 0
    ensures EntryAt(e, p) <==> EntryAt(f, p)
    decreases |p|, 0
  {
    if e.kind.IsDir? && |p| > 1 {
      ReorderedFiles(e.kind.dir, f.kind.dir, p[1..]);
    }
  }

  lemma {:induction false} UnreadableEntry(entries: seq<Entry>)
    ensures EntriesUnreadable(entries) <==> exists i :: 0 <= i < |entries| && EntryUnreadable(entries[i])
    decreases |entries|
  {
    if entries != [] {
      UnreadableEntry(entries[1..]);
      if i :| 0 <= i < |entries| && EntryUnreadable(entries[i]) {
        assert i > 0 ==> EntryUnreadable(entries[1..][i-1]);
      }
      if i :| 0 <= i < |entries[1..]| && EntryUnreadable(entries[1..][i]) {
        assert EntryUnreadable(entries[i+1]);
      }
    }
  }

  lemma {:induction false} ReorderedUnreadable(a: Dir, b: Dir)
    requires Reordered(a, b)
    ensures HasUnreadable(a) <==> HasUnreadable(b)
    decreases a, 1
  {
    if a.Listed? {
      UnreadableEntry(a.entries);
      UnreadableEntry(b.entries);
      if i :| 0 <= i < |a.entries| && EntryUnreadable(a.entries[i]) {
        var j := Counterpart(a, b, i);
        SameEntryUnreadable(a.entries[i], b.entries[j]);
      }
      if j :| 0 <= j < |b.entries| && EntryUnreadable(b.entries[j]) {
        var i := CounterpartBack(a, b, j);
        SameEntryUnreadable(a.entries[i], b.entries[j]);
      }
    }
  }

  lemma {:induction false} SameEntryUnreadable(e: Entry, f: Entry)
    requires SameEntry(e, f)
    ensures EntryUnreadable(e) <==> EntryUnreadable(f)
    decreases e, 0
  {
    if e.kind.IsDir? { ReorderedUnreadable(e.kind.dir, f.kind.dir); }
  }

  /** What the walk promises of its result. */
  ghost predicate WalkReturns(base: Path, root: Dir, r: Option<seq<Path>>) {
    && (r.None? <==> HasUnreadable(root))
    && (r.Some? ==> multiset(r.value) == multiset(FilesOf(base, root)) && Sorted(r.value, KeyLe))
  }

  /** Two walks over the same tree both fail or return the same list, whatever order the directories list
      their entries in. */
  lemma WalkIgnoresListingOrder(base: Path, a: Dir, b: Dir, x: Option<seq<Path>>, y: Option<seq<Path>>)
    requires Reordered(a, b) && DistinctNames(a) && DistinctNames(b)
    requires WalkReturns(base, a, x) && WalkReturns(base, b, y)
    ensures x == y
  {
    ReorderedUnreadable(a, b);
    if x.Some? {
      SameFilesInOrder(base, a, b, x.value, y.value);
    }
  }

  lemma SameFilesInOrder(base: Path, a: Dir, b: Dir, outA: seq<Path>, outB: seq<Path>)
    requires Reordered(a, b) && DistinctNames(a) && DistinctNames(b)
    requires multiset(outA) == multiset(FilesOf(base, a)) && Sorted(outA, KeyLe)
    requires multiset(outB) == multiset(FilesOf(base, b)) && Sorted(outB, KeyLe)
    ensures outA == outB
  {
    WalkResult(base, a, outA);
    WalkResult(base, b, outB);
    forall p ensures p in outA <==> p in outB {
      if base <= p { ReorderedFiles(a, b, p[|base|..]); }
    }
    KeyOrder();
    SortedSetUnique(outA, outB, KeyLe);
  }
}
