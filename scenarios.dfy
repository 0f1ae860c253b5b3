/**
 * Worked loads over small file trees: a nested directory, and the repository's two-loader test.
 */
module Scenarios {
  import opened Wrappers
  import opened Text
  import opened FileTree
  import opened Parrot

  // ------------------------------------------------ a directory with a subdirectory

  const NestedTree: seq<Node> := [Leaf("a.properties"), Dir("sub", [Leaf("b.properties")])]
  const NestedEnv: Environment := Environment("root", map["root" := Dir("root", NestedTree)], "cwd", None)
  const FileA: FileRef := FileRef("root/a.properties", "a.properties")
  const FileB: FileRef := FileRef("root/sub/b.properties", "b.properties")

  /** Reads the files of the nested-directory example. */
  function NestedParse(path: string): Option<Table>
  {
    if path == "root/a.properties" then Some(map["x" := "1"])
    else if path == "root/sub/b.properties" then Some(map["y" := "2"])
    else None
  }

  lemma NestedWalkA()
    ensures Walk("root", [NestedTree[0]]) == [FileA]
  {
    WalkSingle("root", NestedTree[0]);
    assert ChildPath("root", "a.properties") == FileA.path;
  }

  lemma NestedWalkB()
    ensures Walk("root", [NestedTree[1]]) == [FileB]
  {
    WalkSingle("root", NestedTree[1]);
    WalkSingle("root/sub", Leaf("b.properties"));
    assert ChildPath("root", "sub") == "root/sub";
    assert ChildPath("root/sub", "b.properties") == FileB.path;
  }

  /** The depth-first walk of `root` reaches a.properties, then sub/b.properties. */
  lemma NestedWalk()
    ensures Walk("root", NestedTree) == [FileA, FileB]
  {
    NestedWalkA();
    NestedWalkB();
    WalkAppend("root", [NestedTree[0]], [NestedTree[1]]);
    assert [NestedTree[0]] + [NestedTree[1]] == NestedTree;
  }

  /** The class path `root` expands to the files of the walk. */
  lemma NestedClassPathFiles()
    ensures ClassPathFiles(NestedEnv.fs, Split(NestedEnv.classPath, PathSeparator)) == [FileA, FileB]
  {
    SplitSeparatorFree("root", PathSeparator);
    NestedWalk();
    assert ["root"][..0] == [];
  }

  lemma NestedNamesEndInExt()
    ensures EndsWith(FileA.path, Ext) && EndsWith(FileB.path, Ext)
  {
    assert FileA.path == "root/a" + Ext;
    assert FileB.path == "root/sub/b" + Ext;
  }

  lemma NestedCandidatesFirst()
    ensures ClassPathCandidates(None, [FileA]) == [FileA]
  {
    NestedNamesEndInExt();
    assert [FileA][..0] == [];
  }

  lemma NestedCandidatesSecond()
    ensures ClassPathCandidates(None, [FileA, FileB]) == ClassPathCandidates(None, [FileA]) + [FileB]
  {
    NestedNamesEndInExt();
    assert [FileA, FileB][..1] == [FileA];
  }

  /** With no allow-list both files are candidates, in walk order. */
  lemma NestedCandidates()
    ensures Ingested(None, NestedEnv) == [FileA, FileB]
  {
    NestedClassPathFiles();
    NestedCandidatesFirst();
    NestedCandidatesSecond();
  }

  /** Merging the two files yields both of their keys. */
  lemma NestedFold()
    ensures Fold(map[], NestedParse, [FileA, FileB]) == map["x" := "1", "y" := "2"]
  {
    assert [FileA, FileB][..1] == [FileA];
    assert [FileA][..0] == [];
    assert NestedParse(FileA.path) == Some(map["x" := "1"]);
    assert NestedParse(FileB.path) == Some(map["y" := "2"]);
    assert Fold(map[], NestedParse, [FileA]) == map["x" := "1"];
  }

  /**
   * Class path `root`, holding a.properties (`x=1`) and sub/b.properties (`y=2`), no
   * allow-list: both files are found by the depth-first walk and both keys are loaded.
   */
  lemma NestedDirectoryLoadsBoth()
    ensures Load(None, NestedEnv, NestedParse) == map["x" := "1", "y" := "2"]
  {
    NestedCandidates();
    NestedFold();
  }

  // ------------------------------------------------ two loaders with different allow-lists

  const ResTree: seq<Node> := [Leaf("test.properties"), Leaf("test2.properties")]
  const ResEnv: Environment := Environment("res", map["res" := Dir("res", ResTree)], "cwd", None)
  const FileTest: FileRef := FileRef("res/test.properties", "test.properties")
  const FileTest2: FileRef := FileRef("res/test2.properties", "test2.properties")

  /** Reads the files of the two-loader example: each file defines the key it is named after. */
  function ResParse(path: string): Option<Table>
  {
    if path == "res/test.properties" then Some(map["test" := "passed"])
    else if path == "res/test2.properties" then Some(map["test2" := "passed"])
    else None
  }

  lemma ResWalkTest()
    ensures Walk("res", [ResTree[0]]) == [FileTest]
  {
    WalkSingle("res", ResTree[0]);
    assert ChildPath("res", "test.properties") == FileTest.path;
  }

  lemma ResWalkTest2()
    ensures Walk("res", [ResTree[1]]) == [FileTest2]
  {
    WalkSingle("res", ResTree[1]);
    assert ChildPath("res", "test2.properties") == FileTest2.path;
  }

  lemma ResClassPathFiles()
    ensures ClassPathFiles(ResEnv.fs, Split(ResEnv.classPath, PathSeparator)) == [FileTest, FileTest2]
  {
    SplitSeparatorFree("res", PathSeparator);
    ResWalkTest();
    ResWalkTest2();
    WalkAppend("res", [ResTree[0]], [ResTree[1]]);
    assert [ResTree[0]] + [ResTree[1]] == ResTree;
    assert ["res"][..0] == [];
  }

  lemma ResEndInExt()
    ensures EndsWith(FileTest.path, Ext) && EndsWith(FileTest2.path, Ext)
  {
    assert FileTest.path == "res/test" + Ext;
    assert FileTest2.path == "res/test2" + Ext;
  }

  lemma BaseNames()
    ensures RemoveAllExt("test") == "test" && RemoveAllExt("test.properties") == "test"
    ensures RemoveAllExt("test2") == "test2" && RemoveAllExt("test2.properties") == "test2"
  {
    assert "test.properties" == "test" + Ext;
    assert "test2.properties" == "test2" + Ext;
    RemoveAllExtAppendExt("test");
    RemoveAllExtAppendExt("test2");
    DotFreeUnchanged("test");
    DotFreeUnchanged("test2");
  }

  /** The entry "test" (or "test.properties") admits test.properties and rejects test2.properties. */
  lemma AllowTestRejectsTest2(dir: string)
    ensures IsAllowed(FileRef(ChildPath(dir, "test.properties"), "test.properties"), Some(["test"]))
    ensures !IsAllowed(FileRef(ChildPath(dir, "test2.properties"), "test2.properties"), Some(["test"]))
    ensures IsAllowed(FileRef(ChildPath(dir, "test.properties"), "test.properties"), Some(["test.properties"]))
    ensures !IsAllowed(FileRef(ChildPath(dir, "test2.properties"), "test2.properties"), Some(["test.properties"]))
  {
    BaseNames();
  }

  /** Each of the two entries admits its own file and only that one. */
  lemma ResAllowed()
    ensures IsAllowed(FileTest, Some(["test"])) && !IsAllowed(FileTest2, Some(["test"]))
    ensures IsAllowed(FileTest2, Some(["test2"])) && !IsAllowed(FileTest, Some(["test2"]))
  {
    AllowTestRejectsTest2("res");
    BaseNames();
  }

  /** Of two class-path files, only the first is accepted: it alone is ingested. */
  lemma FirstOfTwoClassPath(allowed: Option<seq<string>>, f: FileRef, g: FileRef)
    requires ClassPathAccepts(allowed, f) && !ClassPathAccepts(allowed, g)
    ensures ClassPathCandidates(allowed, [f, g]) == [f]
  {
    ClassPathCandidatesSnoc(allowed, [f, g], 0);
    ClassPathCandidatesSnoc(allowed, [f, g], 1);
    assert [f, g][..0] == [];
    assert [f, g][..2] == [f, g];
  }

  /** Of two class-path files, only the second is accepted: it alone is ingested. */
  lemma SecondOfTwoClassPath(allowed: Option<seq<string>>, f: FileRef, g: FileRef)
    requires !ClassPathAccepts(allowed, f) && ClassPathAccepts(allowed, g)
    ensures ClassPathCandidates(allowed, [f, g]) == [g]
  {
    ClassPathCandidatesSnoc(allowed, [f, g], 0);
    ClassPathCandidatesSnoc(allowed, [f, g], 1);
    assert [f, g][..0] == [];
    assert [f, g][..2] == [f, g];
  }

  /** A loader with no working-directory listing ingests only its class-path candidates. */
  lemma IngestedClassPathOnly(allowed: Option<seq<string>>, env: Environment, files: seq<FileRef>)
    requires env.userDirListing.None?
    requires ClassPathFiles(env.fs, Split(env.classPath, PathSeparator)) == files
    ensures Ingested(allowed, env) == ClassPathCandidates(allowed, files)
  {
  }

  lemma ResAccepts()
    ensures ClassPathAccepts(Some(["test"]), FileTest) && !ClassPathAccepts(Some(["test"]), FileTest2)
    ensures ClassPathAccepts(Some(["test2"]), FileTest2) && !ClassPathAccepts(Some(["test2"]), FileTest)
  {
    ResEndInExt();
    ResAllowed();
  }

  lemma TestCandidates()
    ensures Ingested(Some(["test"]), ResEnv) == [FileTest]
  {
    ResClassPathFiles();
    IngestedClassPathOnly(Some(["test"]), ResEnv, [FileTest, FileTest2]);
    ResAccepts();
    FirstOfTwoClassPath(Some(["test"]), FileTest, FileTest2);
  }

  lemma Test2Candidates()
    ensures Ingested(Some(["test2"]), ResEnv) == [FileTest2]
  {
    ResClassPathFiles();
    IngestedClassPathOnly(Some(["test2"]), ResEnv, [FileTest, FileTest2]);
    ResAccepts();
    SecondOfTwoClassPath(Some(["test2"]), FileTest, FileTest2);
  }

  /** Ingesting one file into `m` applies that file's parse result. */
  lemma FoldSingle(m: Table, parse: Parser, f: FileRef)
    ensures Fold(m, parse, [f]) == Apply(m, parse(f.path))
  {
    assert [f][..0] == [];
  }

  /** A loader that ingests exactly one file, which loads `t`, holds exactly `t`. */
  lemma LoadSingle(allowed: Option<seq<string>>, env: Environment, parse: Parser, f: FileRef, t: Table)
    requires Ingested(allowed, env) == [f] && parse(f.path) == Some(t)
    ensures Load(allowed, env, parse) == t
  {
    FoldSingle(map[], parse, f);
    assert map[] + t == t;
  }

  /** The loader restricted to "test" reads only test.properties. */
  lemma LoadTestOnly()
    ensures Load(Some(["test"]), ResEnv, ResParse) == map["test" := "passed"]
  {
    TestCandidates();
    LoadSingle(Some(["test"]), ResEnv, ResParse, FileTest, map["test" := "passed"]);
  }

  /** The loader restricted to "test2" reads only test2.properties. */
  lemma LoadTest2Only()
    ensures Load(Some(["test2"]), ResEnv, ResParse) == map["test2" := "passed"]
  {
    Test2Candidates();
    LoadSingle(Some(["test2"]), ResEnv, ResParse, FileTest2, map["test2" := "passed"]);
  }

  /**
   * Two loaders built over the same files with the allow-lists "test" and "test2" hold
   * disjoint tables: neither sees the other's key.
   */
  method TwoSeparateParrots() returns (first: Parrot, second: Parrot)
    ensures first != second
    ensures first.Get("test") == Some("passed") && first.Get("test2") == None
    ensures second.Get("test2") == Some("passed") && second.Get("test") == None
  {
    first := new Parrot(Some(["test"]), ResEnv, ResParse);
    second := new Parrot(Some(["test2"]), ResEnv, ResParse);
    LoadTestOnly();
    LoadTest2Only();
  }

  // ------------------------------------------------ the working directory with an allow-list

  const UserListing: seq<string> := ["testUserDir.properties", "testUserDir2.properties"]
  const UserAllowed: Option<seq<string>> := Some(["testUserDir", "test"])
  const UserEnv: Environment := ResEnv.(userDirListing := Some(UserListing))
  const FileUser: FileRef := UserDirFile("cwd", "testUserDir.properties")
  const FileUser2: FileRef := UserDirFile("cwd", "testUserDir2.properties")

  /** Reads the class-path files of the two-loader example and the two working-directory files. */
  function UserParse(path: string): Option<Table>
  {
    if path == FileUser.path then Some(map["testUserDir" := "passed"])
    else if path == FileUser2.path then Some(map["testUserDir2" := "passed"])
    else ResParse(path)
  }

  lemma UserDirBaseNames()
    ensures RemoveAllExt("testUserDir") == "testUserDir"
    ensures RemoveAllExt("testUserDir.properties") == "testUserDir"
    ensures RemoveAllExt("testUserDir2.properties") == "testUserDir2"
  {
    assert "testUserDir.properties" == "testUserDir" + Ext;
    assert "testUserDir2.properties" == "testUserDir2" + Ext;
    RemoveAllExtAppendExt("testUserDir");
    RemoveAllExtAppendExt("testUserDir2");
    DotFreeUnchanged("testUserDir");
    DotFreeUnchanged("testUserDir2");
  }

  /** A two-entry allow-list admits a file exactly when one of its entries matches the name. */
  lemma TwoEntries(f: FileRef, a: string, b: string)
    ensures IsAllowed(f, Some([a, b])) <==>
              RemoveAllExt(a) == RemoveAllExt(f.name) || RemoveAllExt(b) == RemoveAllExt(f.name)
  {
    var entries := [a, b];
    assert entries[0] == a && entries[1] == b;
  }

  /** The entries "testUserDir" and "test" admit test.properties but not test2.properties. */
  lemma UserAllowedClassPath()
    ensures IsAllowed(FileTest, UserAllowed) && !IsAllowed(FileTest2, UserAllowed)
  {
    BaseNames();
    UserDirBaseNames();
    TwoEntries(FileTest, "testUserDir", "test");
    TwoEntries(FileTest2, "testUserDir", "test");
  }

  /** The entries "testUserDir" and "test" admit testUserDir.properties but not testUserDir2.properties. */
  lemma UserAllowedUserDir()
    ensures IsAllowed(FileUser, UserAllowed) && !IsAllowed(FileUser2, UserAllowed)
  {
    BaseNames();
    UserDirBaseNames();
    TwoEntries(FileUser, "testUserDir", "test");
    TwoEntries(FileUser2, "testUserDir", "test");
  }

  lemma UserClassPathCandidates()
    ensures ClassPathCandidates(UserAllowed, [FileTest, FileTest2]) == [FileTest]
  {
    ResEndInExt();
    UserAllowedClassPath();
    FirstOfTwoClassPath(UserAllowed, FileTest, FileTest2);
  }

  lemma UserListingEndInExt()
    ensures EndsWith(UserListing[0], Ext) && EndsWith(UserListing[1], Ext)
  {
    assert UserListing[0] == "testUserDir" + Ext;
    assert UserListing[1] == "testUserDir2" + Ext;
  }

  /** Of two working-directory entries, only the first is accepted: it alone is ingested. */
  lemma FirstOfTwoUserDir(allowed: Option<seq<string>>, userDir: string, a: string, b: string)
    requires UserDirAccepts(allowed, userDir, a) && !UserDirAccepts(allowed, userDir, b)
    ensures UserDirCandidates(allowed, userDir, [a, b]) == [UserDirFile(userDir, a)]
  {
    UserDirCandidatesSnoc(allowed, userDir, [a, b], 0);
    UserDirCandidatesSnoc(allowed, userDir, [a, b], 1);
    assert [a, b][..0] == [];
    assert [a, b][..2] == [a, b];
  }

  lemma UserDirCandidatesListing()
    ensures UserDirCandidates(UserAllowed, "cwd", UserListing) == [FileUser]
  {
    UserListingEndInExt();
    UserAllowedUserDir();
    FirstOfTwoUserDir(UserAllowed, "cwd", UserListing[0], UserListing[1]);
    assert UserListing == [UserListing[0], UserListing[1]];
  }

  lemma UserCandidates()
    ensures Ingested(UserAllowed, UserEnv) == [FileTest, FileUser]
  {
    ResClassPathFiles();
    UserClassPathCandidates();
    UserDirCandidatesListing();
  }

  /** A loader that ingests two files, which load `t` and then `u`, holds `t` overridden by `u`. */
  lemma LoadPair(allowed: Option<seq<string>>, env: Environment, parse: Parser,
                 f: FileRef, g: FileRef, t: Table, u: Table)
    requires Ingested(allowed, env) == [f, g] && parse(f.path) == Some(t) && parse(g.path) == Some(u)
    ensures Load(allowed, env, parse) == t + u
  {
    FoldSingle(map[], parse, f);
    FoldSnoc(map[], parse, [f], g);
    assert [f] + [g] == [f, g];
    assert map[] + t == t;
  }

  /**
   * Allow-list "testUserDir", "test": the class path gives test.properties, the working
   * directory gives testUserDir.properties, and testUserDir2.properties is not read.
   */
  lemma LoadFromUserDirOnlyAllowed()
    ensures Load(UserAllowed, UserEnv, UserParse) == map["test" := "passed", "testUserDir" := "passed"]
  {
    UserCandidates();
    assert UserParse(FileTest.path) == Some(map["test" := "passed"]);
    assert UserParse(FileUser.path) == Some(map["testUserDir" := "passed"]);
    LoadPair(UserAllowed, UserEnv, UserParse, FileTest, FileUser,
             map["test" := "passed"], map["testUserDir" := "passed"]);
    TwoKeys("test", "testUserDir", "passed");
  }

  lemma TwoKeys(k: string, l: string, v: string)
    ensures map[k := v] + map[l := v] == map[k := v, l := v]
  {
  }
}
