/** Packaging of the plugin (`package` and `_make_zip`): which names the walk over
    the source directory drops, how dropping directory names prunes the walk, and
    which paths end up in the archive. Reading directories and writing the zip file
    are left to the caller; a directory is given as a `Tree`. */
module PackageZip {
  import opened Glob
  import opened Lists

  /** `exclude(item)`: the name matches one of the exclude patterns. */
  predicate Excluded(name: string, excludes: set<string>) {
    exists e :: e in excludes && Matches(name, e)
  }

  /** The test in `filter_excludes`: excluded, and not rescued by the skip list. */
  predicate Dropped(name: string, excludes: set<string>, skips: seq<string>) {
    Excluded(name, excludes) && name !in skips
  }

  /** The names `filter_excludes` leaves, in their original order. */
  function Kept(items: seq<string>, excludes: set<string>, skips: seq<string>): (r: seq<string>)
    ensures |r| <= |items|
  {
    if items == [] then []
    else (if Dropped(items[0], excludes, skips) then [] else [items[0]]) + Kept(items[1..], excludes, skips)
  }

  /** A name survives exactly when it was in the list and is not dropped. */
  lemma {:induction false} KeptMembers(items: seq<string>, excludes: set<string>, skips: seq<string>, x: string)
    ensures x in Kept(items, excludes, skips) <==> x in items && !Dropped(x, excludes, skips)
  {
    if items != [] {
      KeptMembers(items[1..], excludes, skips, x);
      assert items == [items[0]] + items[1..];
    }
  }

  /** Filtering works item by item, so survivors keep their relative order. */
  lemma {:induction false} KeptAppend(a: seq<string>, b: seq<string>, excludes: set<string>, skips: seq<string>)
    ensures Kept(a + b, excludes, skips) == Kept(a, excludes, skips) + Kept(b, excludes, skips)
  {
    if a == [] {
      assert a + b == b;
    } else {
      var head := if Dropped(a[0], excludes, skips) then [] else [a[0]];
      assert (a + b)[0] == a[0] && (a + b)[1..] == a[1..] + b;
      assert Kept(a + b, excludes, skips) == head + Kept(a[1..] + b, excludes, skips);
      KeptAppend(a[1..], b, excludes, skips);
      assert Kept(a, excludes, skips) == head + Kept(a[1..], excludes, skips);
    }
  }

  /** Filtering twice drops nothing more. */
  lemma {:induction false} KeptIdempotent(items: seq<string>, excludes: set<string>, skips: seq<string>)
    ensures Kept(Kept(items, excludes, skips), excludes, skips) == Kept(items, excludes, skips)
  {
    if items != [] {
      var head := if Dropped(items[0], excludes, skips) then [] else [items[0]];
      KeptIdempotent(items[1..], excludes, skips);
      KeptAppend(head, Kept(items[1..], excludes, skips), excludes, skips);
    }
  }

  /** One step of `filter_excludes`: a kept name stays where it is, and a dropped one
      is the first occurrence of that name after the names kept so far. */
  lemma KeptStep(items: seq<string>, i: nat, excludes: set<string>, skips: seq<string>)
    requires i < |items|
    ensures items[i..] == [items[i]] + items[i + 1..]
    ensures !Dropped(items[i], excludes, skips) ==>
      Kept(items[..i], excludes, skips) + items[i..] == Kept(items[..i + 1], excludes, skips) + items[i + 1..]
    ensures Dropped(items[i], excludes, skips) ==>
      items[i] !in Kept(items[..i], excludes, skips) &&
      Kept(items[..i], excludes, skips) + items[i + 1..] == Kept(items[..i + 1], excludes, skips) + items[i + 1..]
  {
    var done, x, rest := Kept(items[..i], excludes, skips), items[i], items[i + 1..];
    KeptSnoc(items, i, excludes, skips);
    KeptMembers(items[..i], excludes, skips, x);
    assert items[i..] == [x] + rest;
    if !Dropped(x, excludes, skips) {
      assert done + ([x] + rest) == (done + [x]) + rest;
    }
  }

  /** Filtering one more name appends it unless it is dropped. */
  lemma KeptSnoc(items: seq<string>, i: nat, excludes: set<string>, skips: seq<string>)
    requires i < |items|
    ensures Kept(items[..i + 1], excludes, skips) ==
      Kept(items[..i], excludes, skips) + (if Dropped(items[i], excludes, skips) then [] else [items[i]])
  {
    assert items[..i + 1] == items[..i] + [items[i]];
    KeptAppend(items[..i], [items[i]], excludes, skips);
    assert [items[i]][1..] == [];
  }

  /** A Python list, updated in place (`dirs` and `files` of `os.walk`). */
  class NameList {
    var items: seq<string>

    constructor(items: seq<string>)
      ensures this.items == items
    {
      this.items := items;
    }

    /** `list.remove(x)`. */
    method Remove(x: string)
      requires x in items
      modifies this
      ensures items == RemoveFirst(old(items), x)
    {
      items := RemoveFirst(items, x);
    }
  }

  /** `filter_excludes(root, items)`: an empty list gives a new empty list; otherwise
      every dropped name is removed from `items` in place and `items` itself is
      returned, which is what keeps `os.walk` out of dropped directories. */
  method FilterExcludes(items: NameList, excludes: set<string>, skips: seq<string>) returns (r: NameList)
    modifies items
    ensures old(items.items) == [] ==> fresh(r) && r.items == [] && items.items == old(items.items)
    ensures old(items.items) != [] ==> r == items && items.items == Kept(old(items.items), excludes, skips)
  {
    if items.items == [] {
      r := new NameList([]);
      return;
    }
    RemoveDropped(items, excludes, skips);
    r := items;
  }

  /** The loop of `filter_excludes`: over a copy of the list, each dropped name is
      removed from the list itself. */
  method RemoveDropped(items: NameList, excludes: set<string>, skips: seq<string>)
    modifies items
    ensures items.items == Kept(old(items.items), excludes, skips)
  {
    var copy := items.items;
    var i := 0;
    while i < |copy|
      invariant 0 <= i <= |copy|
      invariant items.items == Kept(copy[..i], excludes, skips) + copy[i..]
    {
      RemoveIfDropped(items, copy, i, excludes, skips);
      i := i + 1;
    }
    assert copy[..i] == copy;
  }

  /** One iteration: `copy[i]` is removed from the list when it is dropped. */
  method RemoveIfDropped(items: NameList, copy: seq<string>, i: nat, excludes: set<string>, skips: seq<string>)
    requires i < |copy| && items.items == Kept(copy[..i], excludes, skips) + copy[i..]
    modifies items
    ensures items.items == Kept(copy[..i + 1], excludes, skips) + copy[i + 1..]
  {
    var item := copy[i];
    KeptStep(copy, i, excludes, skips);
    if Dropped(item, excludes, skips) {
      RemoveAfter(Kept(copy[..i], excludes, skips), item, copy[i + 1..]);
      items.Remove(item);
    }
  }

  /** A directory: its file names and its subdirectories, in `os.walk` order. */
  datatype Tree = Tree(files: seq<string>, dirs: seq<Entry>)
  datatype Entry = Entry(name: string, tree: Tree)

  function Names(es: seq<Entry>): (r: seq<string>)
    ensures |r| == |es| && forall i :: 0 <= i < |es| ==> r[i] == es[i].name
  {
    if es == [] then [] else [es[0].name] + Names(es[1..])
  }

  /** The subdirectories left after `filter_excludes(root, dirs)`. */
  function KeptDirs(es: seq<Entry>, excludes: set<string>, skips: seq<string>): (r: seq<Entry>)
    ensures forall e :: e in r <==> e in es && !Dropped(e.name, excludes, skips)
  {
    if es == [] then []
    else
      var rest := KeptDirs(es[1..], excludes, skips);
      if Dropped(es[0].name, excludes, skips) then rest else [es[0]] + rest
  }

  /** The walk descends into the directories whose names `filter_excludes` keeps,
      in their original order. */
  lemma {:induction false} KeptDirsNames(es: seq<Entry>, excludes: set<string>, skips: seq<string>)
    ensures Names(KeptDirs(es, excludes, skips)) == Kept(Names(es), excludes, skips)
  {
    if es != [] {
      var rest := KeptDirs(es[1..], excludes, skips);
      KeptDirsNames(es[1..], excludes, skips);
      assert Names(es) == [es[0].name] + Names(es[1..]);
      assert Names([es[0]] + rest) == [es[0].name] + Names(rest);
    }
  }

  /** `path / f` for each name. */
  function Under(dir: seq<string>, names: seq<string>): (r: seq<seq<string>>)
    ensures |r| == |names| && forall i :: 0 <= i < |names| ==> r[i] == dir + [names[i]]
  {
    if names == [] then [] else [dir + [names[0]]] + Under(dir, names[1..])
  }

  /** The archive paths `_make_zip` writes for the directory `t` at path `dir`:
      the kept files of `dir`, then, for each kept subdirectory in order, its own
      archive paths. Dropped subdirectories are never walked. */
  function Archive(dir: seq<string>, t: Tree, excludes: set<string>, skips: seq<string>): (r: seq<seq<string>>)
    decreases t, 1
  {
    Under(dir, Kept(t.files, excludes, skips)) + ArchiveDirs(dir, KeptDirs(t.dirs, excludes, skips), excludes, skips, t)
  }

  function ArchiveDirs(dir: seq<string>, es: seq<Entry>, excludes: set<string>, skips: seq<string>, ghost parent: Tree): (r: seq<seq<string>>)
    requires forall e :: e in es ==> e in parent.dirs
    decreases parent, 0, |es|
  {
    if es == [] then []
    else
      assert es[0] in parent.dirs;
      Archive(dir + [es[0].name], es[0].tree, excludes, skips) + ArchiveDirs(dir, es[1..], excludes, skips, parent)
  }

  /** Every file of the tree, by path, whether excluded or not. */
  ghost predicate InTree(path: seq<string>, dir: seq<string>, t: Tree)
    decreases t
  {
    |path| > |dir| && path[..|dir|] == dir &&
    ((|path| == |dir| + 1 && path[|dir|] in t.files) ||
     exists e :: e in t.dirs && e.name == path[|dir|] && InTree(path, dir + [e.name], e.tree))
  }

  /** No part of the path below `dir` is dropped. */
  predicate AllKept(path: seq<string>, dir: seq<string>, excludes: set<string>, skips: seq<string>)
    requires |dir| <= |path|
  {
    forall k :: |dir| <= k < |path| ==> !Dropped(path[k], excludes, skips)
  }

  /** Every archived path is a file of the tree none of whose path components below
      the source directory is dropped: a pruned directory contributes nothing. */
  lemma {:induction false} ArchiveSound(path: seq<string>, dir: seq<string>, t: Tree, excludes: set<string>, skips: seq<string>)
    requires path in Archive(dir, t, excludes, skips)
    ensures InTree(path, dir, t) && AllKept(path, dir, excludes, skips)
    decreases t, 1
  {
    if path in Under(dir, Kept(t.files, excludes, skips)) {
      FileSound(path, dir, t, excludes, skips);
    } else {
      var kept := KeptDirs(t.dirs, excludes, skips);
      var e := ArchiveDirsSound(path, dir, kept, excludes, skips, t);
      SubdirSound(path, dir, t, e, excludes, skips);
    }
  }

  lemma FileSound(path: seq<string>, dir: seq<string>, t: Tree, excludes: set<string>, skips: seq<string>)
    requires path in Under(dir, Kept(t.files, excludes, skips))
    ensures InTree(path, dir, t) && AllKept(path, dir, excludes, skips)
  {
    var names := Kept(t.files, excludes, skips);
    var i :| 0 <= i < |names| && Under(dir, names)[i] == path;
    KeptMembers(t.files, excludes, skips, names[i]);
    assert path == dir + [names[i]];
    assert path[..|dir|] == dir && path[|dir|] == names[i];
  }

  lemma SubdirSound(path: seq<string>, dir: seq<string>, t: Tree, e: Entry, excludes: set<string>, skips: seq<string>)
    requires e in t.dirs && !Dropped(e.name, excludes, skips)
    requires |path| > |dir| && path[..|dir| + 1] == dir + [e.name]
    requires InTree(path, dir + [e.name], e.tree) && AllKept(path, dir + [e.name], excludes, skips)
    ensures InTree(path, dir, t) && AllKept(path, dir, excludes, skips)
  {
    assert path[|dir|] == e.name by {
      assert path[..|dir| + 1][|dir|] == path[|dir|];
    }
    assert path[..|dir|] == dir by {
      assert path[..|dir|] == path[..|dir| + 1][..|dir|];
    }
    forall k | |dir| <= k < |path| ensures !Dropped(path[k], excludes, skips) {
      if k > |dir| {
        assert |dir + [e.name]| <= k;
      }
    }
  }

  lemma {:induction false} ArchiveDirsSound(path: seq<string>, dir: seq<string>, es: seq<Entry>,
                                            excludes: set<string>, skips: seq<string>, parent: Tree)
    returns (e: Entry)
    requires forall e :: e in es ==> e in parent.dirs
    requires path in ArchiveDirs(dir, es, excludes, skips, parent)
    ensures e in es && |path| > |dir| && path[..|dir| + 1] == dir + [e.name]
    ensures InTree(path, dir + [e.name], e.tree) && AllKept(path, dir + [e.name], excludes, skips)
    decreases parent, 0, |es|
  {
    var first := es[0];
    assert first in parent.dirs;
    var sub := dir + [first.name];
    if path in Archive(sub, first.tree, excludes, skips) {
      ArchiveSound(path, sub, first.tree, excludes, skips);
      e := first;
    } else {
      e := ArchiveDirsSound(path, dir, es[1..], excludes, skips, parent);
    }
  }

  /** Every file of the tree none of whose path components below the source
      directory is dropped is archived: pruning loses nothing else. */
  lemma {:induction false} ArchiveComplete(path: seq<string>, dir: seq<string>, t: Tree, excludes: set<string>, skips: seq<string>)
    requires InTree(path, dir, t) && AllKept(path, dir, excludes, skips)
    ensures path in Archive(dir, t, excludes, skips)
    decreases t, 1
  {
    if |path| == |dir| + 1 && path[|dir|] in t.files {
      FileComplete(path, dir, t, excludes, skips);
    } else {
      var e :| e in t.dirs && e.name == path[|dir|] && InTree(path, dir + [e.name], e.tree);
      var kept := KeptDirs(t.dirs, excludes, skips);
      assert !Dropped(path[|dir|], excludes, skips);
      assert e in kept;
      assert AllKept(path, dir + [e.name], excludes, skips);
      ArchiveComplete(path, dir + [e.name], e.tree, excludes, skips);
      ArchiveDirsComplete(path, dir, kept, e, excludes, skips, t);
    }
  }

  lemma FileComplete(path: seq<string>, dir: seq<string>, t: Tree, excludes: set<string>, skips: seq<string>)
    requires |path| == |dir| + 1 && path[..|dir|] == dir && path[|dir|] in t.files
    requires !Dropped(path[|dir|], excludes, skips)
    ensures path in Under(dir, Kept(t.files, excludes, skips))
  {
    var names := Kept(t.files, excludes, skips);
    var f := path[|dir|];
    KeptMembers(t.files, excludes, skips, f);
    var i :| 0 <= i < |names| && names[i] == f;
    LastSplit(path, |dir|);
    assert Under(dir, names)[i] == path;
  }

  lemma {:induction false} ArchiveDirsComplete(path: seq<string>, dir: seq<string>, es: seq<Entry>, e: Entry,
                                               excludes: set<string>, skips: seq<string>, parent: Tree)
    requires forall e :: e in es ==> e in parent.dirs
    requires e in es && path in Archive(dir + [e.name], e.tree, excludes, skips)
    ensures path in ArchiveDirs(dir, es, excludes, skips, parent)
    decreases |es|
  {
    if es[0] != e {
      ArchiveDirsComplete(path, dir, es[1..], e, excludes, skips, parent);
    }
  }

  /** `set(excludes)`. */
  function PatternSet(patterns: seq<string>): set<string> {
    set e | e in patterns
  }

  /** The configured exclude patterns, the test directories and the source directory. */
  const DefaultExcludes: seq<string> :=
    [".DS_Store", "test-output", "data_prep_scripts", "ext-src", "coverage*", "nose*", "*.pyc"]
  const DefaultTests: seq<string> := ["test"]
  const SourceDir: string := "LDMP"

  /** The `plugin` options the packaging tasks read and extend. */
  class Plugin {
    var excludes: seq<string>
    var tests: seq<string>
    var skipExclude: seq<string>

    constructor()
      ensures excludes == DefaultExcludes && tests == DefaultTests && skipExclude == []
    {
      excludes := DefaultExcludes;
      tests := DefaultTests;
      skipExclude := [];
    }

    /** `package(options)`: unless tests are packaged, the test patterns are appended
        to the exclude list in place; then the archive is built from the source tree. */
    method Package(packageTests: bool, src: Tree) returns (archive: seq<seq<string>>)
      modifies this`excludes
      ensures excludes == if packageTests then old(excludes) else old(excludes) + tests
      ensures archive == Archive([SourceDir], src, PatternSet(excludes), skipExclude)
    {
      if !packageTests {
        excludes := excludes + tests;
      }
      archive := Archive([SourceDir], src, PatternSet(excludes), skipExclude);
    }
  }

  /** A name matching one of the patterns is excluded by their set. */
  lemma MatchExcludes(name: string, patterns: seq<string>, k: nat)
    requires k < |patterns| && Matches(name, patterns[k])
    ensures Excluded(name, PatternSet(patterns))
  {
    assert patterns[k] in PatternSet(patterns);
  }

  /** The names the default options leave out of a package without tests: the test
      directory, `.DS_Store`, `coverage*`, `nose*` and `*.pyc`. */
  predicate DefaultLeftOut(name: string) {
    name == "test" || name == ".DS_Store" ||
    (|name| >= 8 && name[..8] == "coverage") || (|name| >= 4 && name[..4] == "nose") ||
    (|name| >= 4 && name[|name| - 4..] == ".pyc")
  }

  /** The default patterns, with the test directory added, exclude those names. */
  lemma {:induction false} DefaultExcluded(name: string)
    requires DefaultLeftOut(name)
    ensures Excluded(name, PatternSet(DefaultExcludes + DefaultTests))
  {
    var all := DefaultExcludes + DefaultTests;
    assert all[0] == ".DS_Store" && all[4] == "coverage" + "*" && all[5] == "nose" + "*";
    assert all[6] == "*" + ".pyc" && all[7] == "test";
    if name == "test" {
      LiteralMatches(name, "test");
      MatchExcludes(name, all, 7);
    } else if name == ".DS_Store" {
      LiteralMatches(name, ".DS_Store");
      MatchExcludes(name, all, 0);
    } else if |name| >= 8 && name[..8] == "coverage" {
      PrefixStarMatches(name, "coverage");
      MatchExcludes(name, all, 4);
    } else if |name| >= 4 && name[..4] == "nose" {
      PrefixStarMatches(name, "nose");
      MatchExcludes(name, all, 5);
    } else {
      StarSuffixMatches(name, ".pyc");
      MatchExcludes(name, all, 6);
    }
  }

  /** With the default options and tests left out of the package, every archived
      path lies under `LDMP` and no component of it, directory or file, is one of
      the names the defaults leave out. */
  lemma {:induction false} DefaultPackageLeavesOut(src: Tree, path: seq<string>)
    requires path in Archive([SourceDir], src, PatternSet(DefaultExcludes + DefaultTests), [])
    ensures |path| >= 2 && path[0] == SourceDir
    ensures forall k :: 1 <= k < |path| ==> !DefaultLeftOut(path[k])
  {
    ArchivedUnder(path, [SourceDir], src, PatternSet(DefaultExcludes + DefaultTests), []);
    assert path[0] == path[..1][0];
    forall k | 1 <= k < |path| ensures !DefaultLeftOut(path[k]) {
      KeptNotLeftOut(path[k]);
    }
  }

  /** An archived path extends the directory walked, and every name below it is kept. */
  lemma ArchivedUnder(path: seq<string>, dir: seq<string>, t: Tree, excludes: set<string>, skips: seq<string>)
    requires path in Archive(dir, t, excludes, skips)
    ensures |path| > |dir| && path[..|dir|] == dir
    ensures forall k :: |dir| <= k < |path| ==> !Dropped(path[k], excludes, skips)
  {
    ArchiveSound(path, dir, t, excludes, skips);
  }

  /** A name the default excludes keep is none of the names they leave out. */
  lemma KeptNotLeftOut(name: string)
    requires !Dropped(name, PatternSet(DefaultExcludes + DefaultTests), [])
    ensures !DefaultLeftOut(name)
  {
    if DefaultLeftOut(name) {
      DefaultExcluded(name);
    }
  }
}
