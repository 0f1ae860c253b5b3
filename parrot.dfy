/**
 * The loader itself: the allow-list rule, the per-file merge, the order in which the
 * class-path and working-directory candidates are merged, and the `Parrot` object that
 * owns the resulting property table.
 *
 * The environment is an input: the class-path string, the file-system tree its segments
 * name, the working directory and its listing. Reading and parsing a file is an oracle
 * from a path to the pairs it holds, `None` standing for an `IOException`.
 */
module Parrot {
  import opened Wrappers
  import opened Text
  import opened FileTree

  /** A property table: keys are unique, each maps to one value. */
  type Table = map<string, string>

  /** What `Properties.load` yields for the file at a path; `None` is an `IOException`. */
  type Parser = string -> Option<Table>

  /**
   * What the constructor reads from its surroundings: `java.class.path` and the tree that
   * its segments name, `user.dir` and the entry names `Files.list` gives for it
   * (`None` when listing throws an `IOException`).
   */
  datatype Environment = Environment(
    classPath: string,
    fs: map<string, Node>,
    userDir: string,
    userDirListing: Option<seq<string>>)

  // ---------------------------------------------------------------- allow-list

  /**
   * The base name an allow-list entry stands for: the suffix is stripped only when the
   * entry contains it, which comes to the same as stripping it unconditionally.
   */
  function EntryBase(entry: string): (r: string)
    ensures r == RemoveAllExt(entry)
  {
    if Contains(entry, Ext) then RemoveAllExt(entry)
    else
      RemoveAllExtUnchanged(entry);
      entry
  }

  /** The loop of `isAllowed`: does some entry, taken in order, stand for `base`? */
  function AnyEntryMatches(base: string, entries: seq<string>): (r: bool)
    ensures r <==> exists i :: 0 <= i < |entries| && RemoveAllExt(entries[i]) == base
    decreases |entries|
  {
    if entries == [] then false
    else if base == EntryBase(entries[0]) then true
    else
      var rest := AnyEntryMatches(base, entries[1..]);
      assert forall i :: 1 <= i < |entries| ==> entries[i] == entries[1..][i - 1];
      rest
  }

  /**
   * `isAllowed`: every file passes when there is no allow-list or it is empty; otherwise a
   * file passes when its name, with every ".properties" removed, equals some entry with
   * every ".properties" removed. Only the file's name is compared, never its directory.
   */
  function IsAllowed(f: FileRef, allowed: Option<seq<string>>): (r: bool)
    ensures allowed.None? || allowed.value == [] ==> r
    ensures allowed.Some? && allowed.value != [] ==>
              (r <==> exists i :: 0 <= i < |allowed.value| &&
                                  RemoveAllExt(allowed.value[i]) == RemoveAllExt(f.name))
  {
    if allowed.None? || |allowed.value| == 0 then true
    else AnyEntryMatches(RemoveAllExt(f.name), allowed.value)
  }

  /** Writing an allow-list entry with or without its ".properties" admits the same files. */
  lemma AllowEntrySuffixOptional(f: FileRef, entries: seq<string>, i: nat)
    requires i < |entries|
    ensures IsAllowed(f, Some(entries)) == IsAllowed(f, Some(entries[i := entries[i] + Ext]))
  {
    var entries' := entries[i := entries[i] + Ext];
    RemoveAllExtAppendExt(entries[i]);
    assert forall j :: 0 <= j < |entries| ==> RemoveAllExt(entries'[j]) == RemoveAllExt(entries[j]);
  }

  // ---------------------------------------------------------------- merging

  /**
   * The effect of `ingest` on a table: the parsed pairs override, every other key keeps
   * its value, and a file that failed to load changes nothing.
   */
  function Apply(m: Table, parsed: Option<Table>): (r: Table)
    ensures parsed.None? ==> r == m
    ensures parsed.Some? ==> r.Keys == m.Keys + parsed.value.Keys
    ensures parsed.Some? ==> forall k :: k in parsed.value ==> r[k] == parsed.value[k]
    ensures parsed.Some? ==> forall k :: k in m && k !in parsed.value ==> r[k] == m[k]
  {
    if parsed.Some? then m + parsed.value else m
  }

  /** The table obtained by ingesting `files` in order into `m`. */
  function Fold(m: Table, parse: Parser, files: seq<FileRef>): Table
    decreases |files|
  {
    if files == [] then m
    else Apply(Fold(m, parse, files[..|files| - 1]), parse(files[|files| - 1].path))
  }

  /** The file at `f` loads and defines `k`. */
  predicate Supplies(parse: Parser, f: FileRef, k: string)
  {
    parse(f.path).Some? && k in parse(f.path).value
  }

  /** A key is in the merged table exactly when some file that loaded defines it. */
  lemma {:induction false} FoldKeys(parse: Parser, files: seq<FileRef>, k: string)
    ensures k in Fold(map[], parse, files) <==> exists i :: 0 <= i < |files| && Supplies(parse, files[i], k)
    decreases |files|
  {
    if files != [] {
      var n := |files| - 1;
      FoldKeys(parse, files[..n], k);
      assert forall i :: 0 <= i < n ==> files[..n][i] == files[i];
    }
  }

  /** A key in the merged table has the value of the last file that defines it, at index `i`. */
  lemma {:induction false} FoldLastSupplier(parse: Parser, files: seq<FileRef>, k: string) returns (i: nat)
    requires k in Fold(map[], parse, files)
    ensures i < |files| && Supplies(parse, files[i], k)
    ensures Fold(map[], parse, files)[k] == parse(files[i].path).value[k]
    ensures forall j :: i < j < |files| ==> !Supplies(parse, files[j], k)
    decreases |files|
  {
    var n := |files| - 1;
    var init := files[..n];
    if Supplies(parse, files[n], k) {
      i := n;
    } else {
      i := FoldLastSupplier(parse, init, k);
      assert init[i] == files[i];
      assert forall j :: i < j < n ==> init[j] == files[j];
    }
  }

  /**
   * Last write wins: a key is in the merged table exactly when some file that loaded
   * defines it, and then its value is the one from the last such file.
   */
  lemma FoldLastWins(parse: Parser, files: seq<FileRef>, k: string)
    ensures k in Fold(map[], parse, files) <==> exists i :: 0 <= i < |files| && Supplies(parse, files[i], k)
    ensures k in Fold(map[], parse, files) ==>
              exists i :: 0 <= i < |files| && Supplies(parse, files[i], k) &&
                          Fold(map[], parse, files)[k] == parse(files[i].path).value[k] &&
                          forall j :: i < j < |files| ==> !Supplies(parse, files[j], k)
  {
    FoldKeys(parse, files, k);
    if k in Fold(map[], parse, files) {
      var i := FoldLastSupplier(parse, files, k);
    }
  }

  // ---------------------------------------------------------------- candidates

  /** The test a class-path file must pass to be ingested: the class-path test of the constructor. */
  predicate ClassPathAccepts(allowed: Option<seq<string>>, f: FileRef)
  {
    EndsWith(f.path, Ext) && IsAllowed(f, allowed)
  }

  /** The class-path files that are ingested: the path ends in ".properties" and the file is allowed. */
  function ClassPathCandidates(allowed: Option<seq<string>>, files: seq<FileRef>): seq<FileRef>
    decreases |files|
  {
    if files == [] then []
    else
      var f := files[|files| - 1];
      var init := ClassPathCandidates(allowed, files[..|files| - 1]);
      if ClassPathAccepts(allowed, f) then init + [f] else init
  }

  /** A class-path file is ingested exactly when its path ends in ".properties" and it is allowed. */
  lemma {:induction false} ClassPathCandidatesMember(allowed: Option<seq<string>>, files: seq<FileRef>, f: FileRef)
    ensures f in ClassPathCandidates(allowed, files) <==>
              f in files && EndsWith(f.path, Ext) && IsAllowed(f, allowed)
    decreases |files|
  {
    if files != [] {
      var init := files[..|files| - 1];
      ClassPathCandidatesMember(allowed, init, f);
      assert files == init + [files[|files| - 1]];
    }
  }

  /** The file the working-directory entry `name` stands for (`path.toFile()`). */
  function UserDirFile(userDir: string, name: string): FileRef
  {
    FileRef(ChildPath(userDir, name), name)
  }

  /** The test a working-directory entry must pass to be ingested: the working-directory test of the constructor. */
  predicate UserDirAccepts(allowed: Option<seq<string>>, userDir: string, name: string)
  {
    EndsWith(name, Ext) && IsAllowed(UserDirFile(userDir, name), allowed)
  }

  /**
   * The working-directory entries that are ingested: the entry name ends in ".properties"
   * and the file is allowed.
   */
  function UserDirCandidates(allowed: Option<seq<string>>, userDir: string, names: seq<string>): seq<FileRef>
    decreases |names|
  {
    if names == [] then []
    else
      var name := names[|names| - 1];
      var f := UserDirFile(userDir, name);
      var init := UserDirCandidates(allowed, userDir, names[..|names| - 1]);
      if UserDirAccepts(allowed, userDir, name) then init + [f] else init
  }

  /**
   * A working-directory entry is ingested exactly when its name ends in ".properties" and
   * it is allowed; it is ingested as the file of that name inside the working directory.
   */
  lemma {:induction false} UserDirCandidatesMember(allowed: Option<seq<string>>, userDir: string, names: seq<string>, f: FileRef)
    ensures f in UserDirCandidates(allowed, userDir, names) <==>
              f.name in names && f == UserDirFile(userDir, f.name) &&
              EndsWith(f.name, Ext) && IsAllowed(f, allowed)
    decreases |names|
  {
    if names != [] {
      var init := names[..|names| - 1];
      UserDirCandidatesMember(allowed, userDir, init, f);
      assert names == init + [names[|names| - 1]];
    }
  }

  /** Every file the constructor ingests, in the order it ingests them. */
  function Ingested(allowed: Option<seq<string>>, env: Environment): seq<FileRef>
  {
    ClassPathCandidates(allowed, ClassPathFiles(env.fs, Split(env.classPath, PathSeparator))) +
    (if env.userDirListing.Some? then UserDirCandidates(allowed, env.userDir, env.userDirListing.value) else [])
  }

  /** The table a freshly constructed loader holds. */
  function Load(allowed: Option<seq<string>>, env: Environment, parse: Parser): Table
  {
    Fold(map[], parse, Ingested(allowed, env))
  }

  /** Ingesting `a` and then `b` is one left-to-right merge of `a + b`. */
  lemma {:induction false} FoldAppend(m: Table, parse: Parser, a: seq<FileRef>, b: seq<FileRef>)
    ensures Fold(m, parse, a + b) == Fold(Fold(m, parse, a), parse, b)
    decreases |b|
  {
    if b == [] {
      assert a + b == a;
    } else {
      var n := |b| - 1;
      assert (a + b)[..|a + b| - 1] == a + b[..n];
      assert (a + b)[|a + b| - 1] == b[n];
      FoldAppend(m, parse, a, b[..n]);
    }
  }

  /** Once some file in `files` defines `k`, the table ingested into does not matter for `k`. */
  lemma {:induction false} FoldSupplierOverrides(m1: Table, m2: Table, parse: Parser, files: seq<FileRef>, k: string)
    requires exists i :: 0 <= i < |files| && Supplies(parse, files[i], k)
    ensures k in Fold(m1, parse, files) && k in Fold(m2, parse, files)
    ensures Fold(m1, parse, files)[k] == Fold(m2, parse, files)[k]
    decreases |files|
  {
    var n := |files| - 1;
    var init := files[..n];
    if !Supplies(parse, files[n], k) {
      var i :| 0 <= i < |files| && Supplies(parse, files[i], k);
      assert init[i] == files[i];
      FoldSupplierOverrides(m1, m2, parse, init, k);
    }
  }

  /** Files merged later override earlier ones: a key some file of `b` defines keeps its value from `b`. */
  lemma LaterFilesOverride(parse: Parser, a: seq<FileRef>, b: seq<FileRef>, k: string)
    requires exists i :: 0 <= i < |b| && Supplies(parse, b[i], k)
    ensures k in Fold(map[], parse, a + b) && k in Fold(map[], parse, b)
    ensures Fold(map[], parse, a + b)[k] == Fold(map[], parse, b)[k]
  {
    FoldAppend(map[], parse, a, b);
    FoldSupplierOverrides(Fold(map[], parse, a), map[], parse, b, k);
  }

  /**
   * The working directory is merged after the class path: a key that an ingested
   * working-directory file defines takes its value from the working directory, whatever
   * the class-path files say about it.
   */
  lemma UserDirOverridesClassPath(allowed: Option<seq<string>>, env: Environment, parse: Parser, names: seq<string>, k: string)
    requires env.userDirListing == Some(names)
    requires exists i :: 0 <= i < |UserDirCandidates(allowed, env.userDir, names)| &&
                         Supplies(parse, UserDirCandidates(allowed, env.userDir, names)[i], k)
    ensures k in Load(allowed, env, parse)
    ensures k in Fold(map[], parse, UserDirCandidates(allowed, env.userDir, names))
    ensures Load(allowed, env, parse)[k] == Fold(map[], parse, UserDirCandidates(allowed, env.userDir, names))[k]
  {
    var fromClassPath := ClassPathCandidates(allowed, ClassPathFiles(env.fs, Split(env.classPath, PathSeparator)));
    LaterFilesOverride(parse, fromClassPath, UserDirCandidates(allowed, env.userDir, names), k);
  }

  lemma FoldSnoc(m: Table, parse: Parser, files: seq<FileRef>, f: FileRef)
    ensures Fold(m, parse, files + [f]) == Apply(Fold(m, parse, files), parse(f.path))
  {
    assert (files + [f])[..|files|] == files;
  }

  lemma ClassPathCandidatesSnoc(allowed: Option<seq<string>>, files: seq<FileRef>, i: nat)
    requires i < |files|
    ensures ClassPathAccepts(allowed, files[i]) ==>
              ClassPathCandidates(allowed, files[..i + 1]) == ClassPathCandidates(allowed, files[..i]) + [files[i]]
    ensures !ClassPathAccepts(allowed, files[i]) ==>
              ClassPathCandidates(allowed, files[..i + 1]) == ClassPathCandidates(allowed, files[..i])
  {
    assert files[..i + 1][..i] == files[..i];
  }

  lemma UserDirCandidatesSnoc(allowed: Option<seq<string>>, userDir: string, names: seq<string>, j: nat)
    requires j < |names|
    ensures UserDirAccepts(allowed, userDir, names[j]) ==>
              UserDirCandidates(allowed, userDir, names[..j + 1]) ==
              UserDirCandidates(allowed, userDir, names[..j]) + [UserDirFile(userDir, names[j])]
    ensures !UserDirAccepts(allowed, userDir, names[j]) ==>
              UserDirCandidates(allowed, userDir, names[..j + 1]) == UserDirCandidates(allowed, userDir, names[..j])
  {
    assert names[..j + 1][..j] == names[..j];
  }

  /** The constructor's two phases: the class-path merge, then the working-directory merge on top of it. */
  lemma LoadInPhases(allowed: Option<seq<string>>, env: Environment, parse: Parser, files: seq<FileRef>)
    requires files == ClassPathFiles(env.fs, Split(env.classPath, PathSeparator))
    ensures env.userDirListing.None? ==>
              Load(allowed, env, parse) == Fold(map[], parse, ClassPathCandidates(allowed, files))
    ensures env.userDirListing.Some? ==>
              Load(allowed, env, parse) ==
              Fold(Fold(map[], parse, ClassPathCandidates(allowed, files)), parse,
                   UserDirCandidates(allowed, env.userDir, env.userDirListing.value))
  {
    var fromClassPath := ClassPathCandidates(allowed, files);
    if env.userDirListing.Some? {
      FoldAppend(map[], parse, fromClassPath, UserDirCandidates(allowed, env.userDir, env.userDirListing.value));
    } else {
      assert Ingested(allowed, env) == fromClassPath + [];
      assert fromClassPath + [] == fromClassPath;
    }
  }

  // ---------------------------------------------------------------- the loader object

  class Parrot {
    /** The property table, filled once by the constructor. */
    var properties: Table

    /**
     * Scans the class path, then the working directory, and ingests every candidate that
     * ends in ".properties" and passes the allow-list.
     */
    constructor (allowed: Option<seq<string>>, env: Environment, parse: Parser)
      ensures properties == Load(allowed, env, parse)
    {
      properties := map[];
      new;
      var files := GetFiles(env.classPath, env.fs);
      LoadInPhases(allowed, env, parse, files);
      IngestClassPath(files, allowed, parse);
      if env.userDirListing.Some? {
        IngestUserDir(env.userDir, env.userDirListing.value, allowed, parse);
      }
    }

    /** The class-path loop of the constructor: ingests the candidates among `files`, in order. */
    method IngestClassPath(files: seq<FileRef>, allowed: Option<seq<string>>, parse: Parser)
      modifies this
      ensures properties == Fold(old(properties), parse, ClassPathCandidates(allowed, files))
    {
      var i := 0;
      while i < |files|
        invariant 0 <= i <= |files|
        invariant properties == Fold(old(properties), parse, ClassPathCandidates(allowed, files[..i]))
      {
        var f := files[i];
        ClassPathCandidatesSnoc(allowed, files, i);
        ghost var before := ClassPathCandidates(allowed, files[..i]);
        if ClassPathAccepts(allowed, f) {
          Ingest(f, parse);
          FoldSnoc(old(properties), parse, before, f);
        }
        i := i + 1;
      }
      assert files[..i] == files;
    }

    /** The working-directory loop of the constructor: ingests the candidates among the entry names, in order. */
    method IngestUserDir(userDir: string, names: seq<string>, allowed: Option<seq<string>>, parse: Parser)
      modifies this
      ensures properties == Fold(old(properties), parse, UserDirCandidates(allowed, userDir, names))
    {
      var j := 0;
      while j < |names|
        invariant 0 <= j <= |names|
        invariant properties == Fold(old(properties), parse, UserDirCandidates(allowed, userDir, names[..j]))
      {
        var name := names[j];
        var f := UserDirFile(userDir, name);
        UserDirCandidatesSnoc(allowed, userDir, names, j);
        ghost var before := UserDirCandidates(allowed, userDir, names[..j]);
        if UserDirAccepts(allowed, userDir, name) {
          Ingest(f, parse);
          FoldSnoc(old(properties), parse, before, f);
        }
        j := j + 1;
      }
      assert names[..j] == names;
    }

    /**
     * `ingest`: loads the file and puts each of its pairs into the table; a file that
     * fails to load leaves the table as it was.
     */
    method Ingest(f: FileRef, parse: Parser)
      modifies this
      ensures properties == Apply(old(properties), parse(f.path))
    {
      var outcome := parse(f.path);
      if outcome.Some? {
        var parsed := outcome.value;
        var pending := parsed.Keys;
        while pending != {}
          invariant pending <= parsed.Keys
          invariant properties == old(properties) + map k | k in parsed.Keys - pending :: parsed[k]
          decreases pending
        {
          var k :| k in pending;
          properties := properties[k := parsed[k]];
          pending := pending - {k};
        }
        assert (map k | k in parsed.Keys - pending :: parsed[k]) == parsed;
      }
    }

    /** `get`: the value of a key, or `None` when the table does not hold it. */
    function Get(key: string): (r: Option<string>)
      reads this
      ensures r.Some? <==> key in properties
      ensures r.Some? ==> r.value == properties[key]
    {
      if key in properties then Some(properties[key]) else None
    }

    /** `all`: a copy of the whole table. */
    function All(): (m: Table)
      reads this
      ensures m.Keys == properties.Keys
      ensures forall k :: k in m ==> m[k] == properties[k]
    {
      properties
    }
  }

  /**
   * What `get` answers after construction: a key is present exactly when some ingested
   * file that loaded defines it, and its value is the one from the last such file.
   */
  lemma LoadedGet(p: Parrot, allowed: Option<seq<string>>, env: Environment, parse: Parser, k: string)
    requires p.properties == Load(allowed, env, parse)
    ensures var files := Ingested(allowed, env);
            p.Get(k).Some? <==> exists i :: 0 <= i < |files| && Supplies(parse, files[i], k)
    ensures var files := Ingested(allowed, env);
            p.Get(k).Some? ==>
              exists i :: 0 <= i < |files| && Supplies(parse, files[i], k) &&
                          p.Get(k).value == parse(files[i].path).value[k] &&
                          forall j :: i < j < |files| ==> !Supplies(parse, files[j], k)
  {
    FoldLastWins(parse, Ingested(allowed, env), k);
  }
}
