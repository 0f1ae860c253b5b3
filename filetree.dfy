/**
 * The part of the loader that enumerates candidate files on the class path: the
 * path-list string is split on the path separator and every segment that names a
 * directory is expanded depth-first into every entry beneath it that is not a directory
 * (`getFiles` and `recurse`). The file system is an input: a tree of nodes.
 */
module FileTree {
  import opened Text

  /**
   * A file-system entry as `File.listFiles` reports it: a directory with its listing,
   * or any other entry (a regular file, a special file, a dangling link).
   */
  datatype Node = Leaf(name: string) | Dir(name: string, children: seq<Node>)

  /** A `java.io.File` as the loader uses it: its path (`getPath`) and its name (`getName`). */
  datatype FileRef = FileRef(path: string, name: string)

  /** The path of an entry called `name` inside the directory at `dir` (`new File(dir, name)`). */
  function ChildPath(dir: string, name: string): string
  {
    dir + [NameSeparator] + name
  }

  /** Every entry that is not a directory beneath a directory whose listing is `listing`, in depth-first order. */
  function Walk(dir: string, listing: seq<Node>): seq<FileRef>
    decreases listing
  {
    if listing == [] then []
    else
      var n := listing[0];
      var first := match n
        case Leaf(nm) => [FileRef(ChildPath(dir, nm), nm)]
        case Dir(nm, sub) => Walk(ChildPath(dir, nm), sub);
      first + Walk(dir, listing[1..])
  }

  /** Every file found beneath a directory lies inside it, and its path ends with its name. */
  lemma {:induction false} WalkPaths(dir: string, listing: seq<Node>)
    ensures forall f :: f in Walk(dir, listing) ==>
              StartsWith(f.path, dir + [NameSeparator]) && EndsWith(f.path, [NameSeparator] + f.name)
    decreases listing
  {
    if listing != [] {
      var n := listing[0];
      var p := ChildPath(dir, n.name);
      WalkPaths(dir, listing[1..]);
      if n.Dir? {
        WalkPaths(p, n.children);
        forall f | f in Walk(p, n.children)
          ensures StartsWith(f.path, dir + [NameSeparator])
        {
          assert f.path[..|dir| + 1] == f.path[..|p| + 1][..|dir| + 1];
          assert p[..|dir| + 1] == dir + [NameSeparator];
        }
      }
    }
  }

  lemma {:induction false} WalkAppend(dir: string, a: seq<Node>, b: seq<Node>)
    ensures Walk(dir, a + b) == Walk(dir, a) + Walk(dir, b)
    decreases a
  {
    if a != [] {
      assert (a + b)[0] == a[0];
      assert (a + b)[1..] == a[1..] + b;
      WalkAppend(dir, a[1..], b);
    } else {
      assert a + b == b;
    }
  }

  lemma WalkSingle(dir: string, n: Node)
    ensures n.Leaf? ==> Walk(dir, [n]) == [FileRef(ChildPath(dir, n.name), n.name)]
    ensures n.Dir? ==> Walk(dir, [n]) == Walk(ChildPath(dir, n.name), n.children)
  {
    assert [n][1..] == [];
  }

  /** Every entry beneath a directory, directories included, with its path, in depth-first pre-order. */
  function Preorder(dir: string, listing: seq<Node>): seq<(string, Node)>
    decreases listing
  {
    if listing == [] then []
    else
      var n := listing[0];
      var p := ChildPath(dir, n.name);
      [(p, n)] + (if n.Dir? then Preorder(p, n.children) else []) + Preorder(dir, listing[1..])
  }

  /** The entries that are not directories, in the same order; directories are dropped. */
  function LeavesOnly(entries: seq<(string, Node)>): (r: seq<FileRef>)
    ensures forall f :: f in r ==> (f.path, Leaf(f.name)) in entries
    ensures forall i :: 0 <= i < |entries| && entries[i].1.Leaf? ==>
              FileRef(entries[i].0, entries[i].1.name) in r
    decreases |entries|
  {
    if entries == [] then []
    else
      var rest := LeavesOnly(entries[1..]);
      assert forall i :: 1 <= i < |entries| ==> entries[i] == entries[1..][i - 1];
      if entries[0].1.Leaf? then [FileRef(entries[0].0, entries[0].1.name)] + rest else rest
  }

  lemma {:induction false} LeavesOnlyAppend(a: seq<(string, Node)>, b: seq<(string, Node)>)
    ensures LeavesOnly(a + b) == LeavesOnly(a) + LeavesOnly(b)
    decreases |a|
  {
    if a != [] {
      assert (a + b)[0] == a[0];
      assert (a + b)[1..] == a[1..] + b;
      LeavesOnlyAppend(a[1..], b);
    } else {
      assert a + b == b;
    }
  }

  /**
   * The walk yields exactly the non-directory entries of the depth-first pre-order traversal,
   * in that order: no directory is ever reported.
   */
  lemma {:induction false} WalkIsLeavesOfPreorder(dir: string, listing: seq<Node>)
    ensures Walk(dir, listing) == LeavesOnly(Preorder(dir, listing))
    decreases listing
  {
    if listing != [] {
      var n := listing[0];
      var p := ChildPath(dir, n.name);
      var below := if n.Dir? then Preorder(p, n.children) else [];
      WalkIsLeavesOfPreorder(dir, listing[1..]);
      if n.Dir? {
        WalkIsLeavesOfPreorder(p, n.children);
      }
      LeavesOnlyAppend([(p, n)], below);
      LeavesOnlyAppend([(p, n)] + below, Preorder(dir, listing[1..]));
    }
  }

  /**
   * What one path-list segment contributes: the files beneath it when `fs` says it is
   * a directory, otherwise the segment itself (whether or not it exists).
   */
  function SegmentFiles(fs: map<string, Node>, seg: string): seq<FileRef>
  {
    if seg in fs && fs[seg].Dir? then Walk(seg, fs[seg].children)
    else [FileRef(seg, BaseName(seg))]
  }

  /** The candidates of all segments, segment by segment in order. */
  function ClassPathFiles(fs: map<string, Node>, segs: seq<string>): seq<FileRef>
    decreases |segs|
  {
    if segs == [] then []
    else ClassPathFiles(fs, segs[..|segs| - 1]) + SegmentFiles(fs, segs[|segs| - 1])
  }

  /** A file is a candidate exactly when some segment contributes it. */
  lemma {:induction false} ClassPathFilesSource(fs: map<string, Node>, segs: seq<string>, f: FileRef) returns (i: nat)
    requires f in ClassPathFiles(fs, segs)
    ensures i < |segs| && f in SegmentFiles(fs, segs[i])
    decreases |segs|
  {
    var n := |segs| - 1;
    assert ClassPathFiles(fs, segs) == ClassPathFiles(fs, segs[..n]) + SegmentFiles(fs, segs[n]);
    if f in SegmentFiles(fs, segs[n]) {
      i := n;
    } else {
      i := ClassPathFilesSource(fs, segs[..n], f);
      assert segs[..n][i] == segs[i];
    }
  }

  /** The candidates of a non-empty path list: those of all but the last segment, then the last. */
  lemma ClassPathFilesSnoc(fs: map<string, Node>, segs: seq<string>)
    requires segs != []
    ensures ClassPathFiles(fs, segs) ==
            ClassPathFiles(fs, segs[..|segs| - 1]) + SegmentFiles(fs, segs[|segs| - 1])
  {
  }

  /** A file that some segment contributes is a candidate. */
  lemma {:induction false} ClassPathFilesCover(fs: map<string, Node>, segs: seq<string>, seg: string, f: FileRef)
    requires seg in segs && f in SegmentFiles(fs, seg)
    ensures f in ClassPathFiles(fs, segs)
    decreases |segs|
  {
    if seg == segs[|segs| - 1] {
      CandidateOfLast(fs, segs, f);
    } else {
      InInit(seg, segs);
      ClassPathFilesCover(fs, segs[..|segs| - 1], seg, f);
      CandidateOfInit(fs, segs, f);
    }
  }

  lemma InInit<T>(x: T, s: seq<T>)
    requires x in s && x != s[|s| - 1]
    ensures x in s[..|s| - 1]
  {
    var k :| 0 <= k < |s| && s[k] == x;
    assert s[..|s| - 1][k] == x;
  }

  /** A candidate of all but the last segment is a candidate of the whole list. */
  lemma CandidateOfInit(fs: map<string, Node>, segs: seq<string>, f: FileRef)
    requires segs != [] && f in ClassPathFiles(fs, segs[..|segs| - 1])
    ensures f in ClassPathFiles(fs, segs)
  {
    ClassPathFilesSnoc(fs, segs);
    InLeft(f, ClassPathFiles(fs, segs[..|segs| - 1]), SegmentFiles(fs, segs[|segs| - 1]));
  }

  /** A file the last segment contributes is a candidate of the whole list. */
  lemma CandidateOfLast(fs: map<string, Node>, segs: seq<string>, f: FileRef)
    requires segs != [] && f in SegmentFiles(fs, segs[|segs| - 1])
    ensures f in ClassPathFiles(fs, segs)
  {
    ClassPathFilesSnoc(fs, segs);
    InRight(f, ClassPathFiles(fs, segs[..|segs| - 1]), SegmentFiles(fs, segs[|segs| - 1]));
  }

  lemma InLeft<T>(x: T, a: seq<T>, b: seq<T>)
    requires x in a
    ensures x in a + b
  {
    var k :| 0 <= k < |a| && a[k] == x;
    assert (a + b)[k] == x;
  }

  lemma InRight<T>(x: T, a: seq<T>, b: seq<T>)
    requires x in b
    ensures x in a + b
  {
    var k :| 0 <= k < |b| && b[k] == x;
    assert (a + b)[|a| + k] == x;
  }

  /** A file is a candidate exactly when some segment contributes it. */
  lemma ClassPathFilesMember(fs: map<string, Node>, segs: seq<string>, f: FileRef)
    ensures f in ClassPathFiles(fs, segs) <==>
              exists i :: 0 <= i < |segs| && f in SegmentFiles(fs, segs[i])
  {
    if f in ClassPathFiles(fs, segs) {
      var i := ClassPathFilesSource(fs, segs, f);
    }
    if exists i :: 0 <= i < |segs| && f in SegmentFiles(fs, segs[i]) {
      var i :| 0 <= i < |segs| && f in SegmentFiles(fs, segs[i]);
      ClassPathFilesCover(fs, segs, segs[i], f);
    }
  }

  /** `recurse`: appends to `acc` every entry beneath the directory at `dir` that is not a directory. */
  method Recurse(acc: seq<FileRef>, dir: string, listing: seq<Node>) returns (out: seq<FileRef>)
    ensures out == acc + Walk(dir, listing)
    decreases listing
  {
    out := acc;
    var i := 0;
    while i < |listing|
      invariant 0 <= i <= |listing|
      invariant out == acc + Walk(dir, listing[..i])
    {
      var n := listing[i];
      WalkAppend(dir, listing[..i], [n]);
      WalkSingle(dir, n);
      assert listing[..i + 1] == listing[..i] + [n];
      match n {
        case Leaf(nm) =>
          out := out + [FileRef(ChildPath(dir, nm), nm)];
        case Dir(nm, sub) =>
          out := Recurse(out, ChildPath(dir, nm), sub);
      }
      i := i + 1;
    }
    assert listing[..i] == listing;
  }

  /** `getFiles`: the candidate files named by a path-list string. */
  method GetFiles(paths: string, fs: map<string, Node>) returns (files: seq<FileRef>)
    ensures files == ClassPathFiles(fs, Split(paths, PathSeparator))
  {
    var segs := Split(paths, PathSeparator);
    files := [];
    var i := 0;
    while i < |segs|
      invariant 0 <= i <= |segs|
      invariant files == ClassPathFiles(fs, segs[..i])
    {
      var seg := segs[i];
      assert segs[..i + 1][..i] == segs[..i];
      if seg in fs && fs[seg].Dir? {
        files := Recurse(files, seg, fs[seg].children);
      } else {
        files := files + [FileRef(seg, BaseName(seg))];
      }
      i := i + 1;
    }
    assert segs[..i] == segs;
  }
}
