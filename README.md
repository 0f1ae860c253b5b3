# Parrot property loader, modelled in Dafny

Parrot is a small Java library that builds one string-to-string configuration table when
it is constructed. It looks for `.properties` files in two places. First it walks every
entry of the class path: a directory is expanded depth-first into every entry beneath it
that is not a directory, anything else is taken as a file. Then it lists the working directory, without
recursing. A file is kept when its name ends in `.properties` and it passes an optional
allow-list. Each kept file is parsed and its pairs are put into the table, so when two
files define a key the later one wins. A file that fails to load is skipped as a whole.
The table is read back with `get` (an `Optional` lookup) and `all` (a copy).

The model has four modules:

- `Text` holds the Java string operations the loader uses: `contains`, `endsWith`,
  `replace(".properties", "")` (which removes every occurrence, not only a trailing
  one), `split` on the path separator, and `File.getName`. `Contains` (built on
  `StartsWith`) and `EndsWith` are taken as the definitions of Java's `contains` and
  `endsWith`; they carry no contract of their own.
- `FileTree` holds `getFiles` and `recurse` as methods with loops over a `seq`
  accumulator. They are proved equal to `Walk`, a depth-first walk of a `Node` tree, and
  `Walk` is proved to be the non-directory entries of a pre-order traversal.
- `Parrot` holds the allow-list rule, the merge `Apply` and its left-to-right fold `Fold`,
  and the two candidate filters. It also holds the class `Parrot`, whose `properties` map
  field is filled by the constructor through `Ingest`, and `Get` and `All`.
- `Scenarios` holds worked loads over small trees: the nested-directory example, and the
  repository's tests with two loaders whose allow-lists are `"test"` and `"test2"`, and a
  load that reads the working directory through the allow-list `"testUserDir", "test"`.

Inputs that the source reads from the environment are parameters:

- `Environment.classPath` stands for `java.class.path`.
- `Environment.fs` maps each path-list segment to the `Node` it names. A segment absent
  from the map, or mapped to a `Leaf`, is not a directory.
- `Environment.userDir` stands for `user.dir`.
- `Environment.userDirListing` is the entry names `Files.list` yields. `None` means the
  listing threw an `IOException`.
- `Parser` is an oracle from a path to the pairs `Properties.load` reads from it. `None`
  means an `IOException`.

The allow-list is an `Option<seq<string>>`, where `None` is a `null` array.

Three points of the code are easy to misread; the model follows the code in each. First, the allow-list comparison removes every `.properties` from both names,
not only a trailing one. Second, class-path candidates are tested on their whole path and
working-directory candidates on their name. Third, a class-path directory whose listing
fails is not skipped: the code would throw `NullPointerException` there (see "Left out").
The static `load` and mock-injection surface that the tests call is not in
`Parrot.java`. The tests are read as calls of the constructor.

## Model

| member | source | states |
|---|---|---|
| `Text.RemoveAllExt` | src/main/java/com/github/rskupnik/parrot/Parrot.java:63-64 | removing every ".properties" never lengthens a string |
| `Text.RemoveAllExtUnchanged` | src/main/java/com/github/rskupnik/parrot/Parrot.java:63 | `replace` leaves a string unchanged exactly when `contains` is false, and otherwise shortens it |
| `Text.RemoveAllExtAppendExt` | src/main/java/com/github/rskupnik/parrot/Parrot.java:63-64 | appending ".properties" to a name does not change what is left after all occurrences are removed |
| `Text.DotFreeUnchanged` | src/main/java/com/github/rskupnik/parrot/Parrot.java:63-64 | a name without a '.' is left unchanged by the removal |
| `Text.BaseName` | src/main/java/com/github/rskupnik/parrot/Parrot.java:64 | `getName` is the longest suffix of the path that holds no name separator |
| `Text.Split` | src/main/java/com/github/rskupnik/parrot/Parrot.java:94 | splitting yields at least one segment and no segment holds the separator |
| `Text.JoinSplit` | src/main/java/com/github/rskupnik/parrot/Parrot.java:94 | joining the segments with the separator gives back the path list |
| `Text.SplitJoin` | src/main/java/com/github/rskupnik/parrot/Parrot.java:94 | splitting a join of separator-free segments gives back the segments |
| `FileTree.WalkPaths` | src/main/java/com/github/rskupnik/parrot/Parrot.java:105-114 | every file found beneath a directory has a path inside that directory that ends with its own name |
| `FileTree.WalkAppend` | src/main/java/com/github/rskupnik/parrot/Parrot.java:107-113 | walking a listing is walking its entries one after another, in listing order |
| `FileTree.WalkIsLeavesOfPreorder` | src/main/java/com/github/rskupnik/parrot/Parrot.java:105-114 | the walk is exactly the entries that are not directories in the depth-first pre-order traversal, in order, with no directory in it |
| `FileTree.Recurse` | src/main/java/com/github/rskupnik/parrot/Parrot.java:105-114 | `recurse` appends to the accumulator exactly the depth-first walk of the directory |
| `FileTree.GetFiles` | src/main/java/com/github/rskupnik/parrot/Parrot.java:92-103 | `getFiles` returns, segment by segment, the walk of each directory segment and each other segment as itself |
| `FileTree.ClassPathFilesMember` | src/main/java/com/github/rskupnik/parrot/Parrot.java:92-103 | a file is enumerated exactly when some path-list segment contributes it |
| `Parrot.EntryBase` | src/main/java/com/github/rskupnik/parrot/Parrot.java:63 | the `contains` guard on an allow-list entry makes no difference: the entry always stands for its name with every ".properties" removed |
| `Parrot.AnyEntryMatches` | src/main/java/com/github/rskupnik/parrot/Parrot.java:62-68 | the loop with early return succeeds exactly when some entry, stripped, equals the stripped file name |
| `Parrot.IsAllowed` | src/main/java/com/github/rskupnik/parrot/Parrot.java:58-69 | a null or empty allow-list admits every file; otherwise a file is admitted iff some entry and the file's name agree once every ".properties" is removed from both |
| `Parrot.AllowEntrySuffixOptional` | src/main/java/com/github/rskupnik/parrot/Parrot.java:62-65 | writing any allow-list entry with or without ".properties" admits the same files |
| `Scenarios.AllowTestRejectsTest2` | src/test/java/com/github/rskupnik/parrot/ParrotTest.java:54-84 | the entries "test" and "test.properties" both admit test.properties and both reject test2.properties, in any directory |
| `Parrot.Apply` | src/main/java/com/github/rskupnik/parrot/Parrot.java:80-90 | ingesting a loaded file adds its keys with its values and keeps every other key's value; a failed load changes nothing |
| `Parrot.FoldLastWins` | src/main/java/com/github/rskupnik/parrot/Parrot.java:35-52 | after merging files in order, a key is present iff some loaded file defines it, and its value comes from the last such file |
| `Parrot.FoldAppend` | src/main/java/com/github/rskupnik/parrot/Parrot.java:35-52 | merging the class-path candidates and then the working-directory candidates is one left-to-right merge of both |
| `Parrot.FoldSupplierOverrides` | src/main/java/com/github/rskupnik/parrot/Parrot.java:84-86 | once a merged file defines a key, what the table held for that key before does not matter |
| `Parrot.LaterFilesOverride` | src/main/java/com/github/rskupnik/parrot/Parrot.java:35-52 | a key defined by a later group of files takes its value from that group alone |
| `Parrot.UserDirOverridesClassPath` | src/main/java/com/github/rskupnik/parrot/Parrot.java:35-55 | a key defined by an ingested working-directory file takes its working-directory value, whatever the class path says |
| `Parrot.ClassPathCandidatesMember` | src/main/java/com/github/rskupnik/parrot/Parrot.java:35-42 | a class-path file is ingested iff it was enumerated, its path ends in ".properties" and it is allowed |
| `Parrot.UserDirCandidatesMember` | src/main/java/com/github/rskupnik/parrot/Parrot.java:45-52 | a working-directory entry is ingested iff it is listed, its name ends in ".properties" and it is allowed, as the file of that name in the working directory |
| `Parrot.Parrot.constructor` | src/main/java/com/github/rskupnik/parrot/Parrot.java:32-56 | starting from an empty table, the loader ends with the left-to-right merge of the class-path candidates followed by the working-directory candidates (none when the listing fails) |
| `Parrot.Parrot.IngestClassPath` | src/main/java/com/github/rskupnik/parrot/Parrot.java:35-42 | the class-path loop merges exactly the class-path candidates, in enumeration order |
| `Parrot.Parrot.IngestUserDir` | src/main/java/com/github/rskupnik/parrot/Parrot.java:45-52 | the working-directory loop merges exactly the working-directory candidates, in listing order |
| `Parrot.Parrot.Ingest` | src/main/java/com/github/rskupnik/parrot/Parrot.java:80-90 | putting a file's pairs one by one leaves the table equal to the old table overridden by the file's pairs; a failed load leaves it unchanged |
| `Parrot.Parrot.Get` | src/main/java/com/github/rskupnik/parrot/Parrot.java:71-74 | `get` is present iff the key is in the table, and then holds the table's value; it changes nothing |
| `Parrot.Parrot.All` | src/main/java/com/github/rskupnik/parrot/Parrot.java:76-78 | `all` holds the same keys and values as the table, and changes nothing |
| `Parrot.LoadedGet` | src/main/java/com/github/rskupnik/parrot/Parrot.java:32-74 | after construction `get(k)` is present iff some ingested file that loaded defines `k`, and holds the value from the last such file |
| `Scenarios.NestedDirectoryLoadsBoth` | src/main/java/com/github/rskupnik/parrot/Parrot.java:92-114 | with class path `root`, holding a.properties (x=1) and sub/b.properties (y=2), the table is exactly {x: 1, y: 2} |
| `Scenarios.LoadTestOnly` | src/test/java/com/github/rskupnik/parrot/ParrotTest.java:54-68 | with allow-list "test", only test.properties is read |
| `Scenarios.LoadTest2Only` | src/test/java/com/github/rskupnik/parrot/ParrotTest.java:144-162 | with allow-list "test2", only test2.properties is read |
| `Scenarios.TwoSeparateParrots` | src/test/java/com/github/rskupnik/parrot/ParrotTest.java:144-162 | two loaders with the allow-lists "test" and "test2" are distinct objects, and neither sees the other's key |
| `Scenarios.LoadFromUserDirOnlyAllowed` | src/test/java/com/github/rskupnik/parrot/ParrotTest.java:100-114 | with allow-list "testUserDir", "test" and a working directory listing testUserDir.properties and testUserDir2.properties, the table is exactly {test: passed, testUserDir: passed}: testUserDir2.properties is not read |

## Left out

- `Properties.load` text parsing (comments, continuations, `\uXXXX` escapes) is a library call. It is the `Parser` oracle.
- A malformed `\uXXXX` escape makes `Properties.load` throw an uncaught `IllegalArgumentException`, which aborts construction. The oracle has only "loaded" and "IOException" outcomes.
- The `FileInputStream` opened in `ingest` is never closed. Resources are not modelled.
- `System.getProperty`, `Files.list`, `File.isDirectory`, `listFiles` and `FileInputStream` are file-system I/O. They are the `Environment` and the `Node` tree.
- A null element of the allow-list makes `isAllowed` throw `NullPointerException` once the loop reaches it. Model strings are never null.
- `listFiles` returning `null` for an unreadable directory would throw `NullPointerException` in `recurse`. The model assumes every directory listing succeeds, because every `Dir` node carries its listing.
- A directory holding itself through a symbolic link cannot be written as a finite `Node` tree, so walks always end.
- An `UncheckedIOException` raised while the working-directory stream is being consumed is not modelled. Only the `IOException` of `Files.list` itself is.
- `java.io.File` path normalisation is not modelled. This covers trailing and repeated separators, and `getName` of a path that ends in a separator.
- Separators are fixed to POSIX: ':' between path-list entries and '/' inside paths. Windows uses ';' and '\'.
- `Text.Split`: `String.split` takes a regular expression and drops trailing empty segments, while `Split` is a plain split that keeps every segment. This changes no table, provided no directory is named by the empty string. An empty segment is not a directory, and its path "" does not end in ".properties", so it is never ingested.
- The working-directory entry path is `user.dir`, '/', and the entry name. `Path.resolve` normalisation is not modelled.
- `printStackTrace` calls are logging only.
- The static `load`, singleton and mock surface the tests use is not part of `Parrot.java`. The `shouldMockParrot` test exercises only the mocking framework.
- `Parrot.Parrot.All`: Dafny maps are values, so the copy that `new HashMap<>(properties)` makes cannot be aliased. That the caller cannot modify the loader's table through it holds by construction and is not stated separately.
