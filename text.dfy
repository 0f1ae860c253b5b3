/**
 * The few java.lang.String and java.io.File name operations the loader relies on,
 * written out on `seq<char>`: `contains`, `endsWith`, `replace(".properties", "")`,
 * `split` on the path separator, and `File.getName`.
 */
module Text {

  /** The configuration-file suffix the loader looks for. */
  const Ext: string := ".properties"

  /** The path-list separator (`File.pathSeparator` on POSIX). */
  const PathSeparator: char := ':'

  /** The name separator inside a path (`File.separatorChar` on POSIX). */
  const NameSeparator: char := '/'

  predicate StartsWith(s: string, p: string)
  {
    |p| <= |s| && s[..|p|] == p
  }

  /** `s.endsWith(p)`. */
  predicate EndsWith(s: string, p: string)
  {
    |p| <= |s| && s[|s| - |p|..] == p
  }

  /** `s.contains(p)`: `p` occurs somewhere in `s`. */
  predicate Contains(s: string, p: string)
    decreases |s|
  {
    StartsWith(s, p) || (|s| > 0 && Contains(s[1..], p))
  }

  /**
   * `s.replace(".properties", "")`: every occurrence of the suffix, found left to
   * right and without overlap, is removed, wherever it stands in `s`.
   */
  function RemoveAllExt(s: string): (r: string)
    ensures |r| <= |s|
    decreases |s|
  {
    if |s| < |Ext| then s
    else if s[..|Ext|] == Ext then RemoveAllExt(s[|Ext|..])
    else [s[0]] + RemoveAllExt(s[1..])
  }

  lemma {:induction false} ShortHasNoExt(s: string)
    requires |s| < |Ext|
    ensures !Contains(s, Ext)
    decreases |s|
  {
    if |s| > 0 {
      ShortHasNoExt(s[1..]);
    }
  }

  /**
   * Removing the suffix changes a string exactly when the suffix occurs in it; when it
   * occurs, the string gets strictly shorter.
   */
  lemma {:induction false} RemoveAllExtUnchanged(s: string)
    ensures RemoveAllExt(s) == s <==> !Contains(s, Ext)
    ensures Contains(s, Ext) ==> |RemoveAllExt(s)| < |s|
    decreases |s|
  {
    if |s| < |Ext| {
      ShortHasNoExt(s);
    } else if s[..|Ext|] == Ext {
      assert StartsWith(s, Ext);
    } else {
      assert !StartsWith(s, Ext);
      RemoveAllExtUnchanged(s[1..]);
      assert s == [s[0]] + s[1..];
    }
  }

  /** No proper suffix of ".properties" is also a prefix of it. */
  lemma ExtHasNoBorder(k: nat)
    requires 0 < k < |Ext|
    ensures Ext[k..] != Ext[..|Ext| - k]
  {
    assert Ext[k..][0] == Ext[k] != '.';
  }

  /** One trailing ".properties" more makes no difference once all of them are removed. */
  lemma {:induction false} RemoveAllExtAppendExt(b: string)
    ensures RemoveAllExt(b + Ext) == RemoveAllExt(b)
    decreases |b|
  {
    var s := b + Ext;
    if |b| == 0 {
      assert s == Ext;
      assert s[|Ext|..] == [];
    } else if s[..|Ext|] == Ext {
      if |b| < |Ext| {
        assert s[..|Ext|] == b + Ext[..|Ext| - |b|];
        assert Ext[|b|..] == s[|b|..|Ext|];
        ExtHasNoBorder(|b|);
        assert false;
      }
      assert b[..|Ext|] == s[..|Ext|];
      assert s[|Ext|..] == b[|Ext|..] + Ext;
      RemoveAllExtAppendExt(b[|Ext|..]);
    } else {
      assert s[1..] == b[1..] + Ext;
      RemoveAllExtAppendExt(b[1..]);
      if |b| >= |Ext| {
        assert b[..|Ext|] == s[..|Ext|];
      } else {
        assert b == [b[0]] + b[1..];
      }
    }
  }

  /** A string without a '.' can hold no ".properties", so removing it leaves the string alone. */
  lemma DotFreeUnchanged(s: string)
    requires '.' !in s
    ensures RemoveAllExt(s) == s
  {
    if Contains(s, Ext) {
      ContainsHasDot(s);
    }
    RemoveAllExtUnchanged(s);
  }

  lemma {:induction false} ContainsHasDot(s: string)
    requires Contains(s, Ext)
    ensures '.' in s
    decreases |s|
  {
    if StartsWith(s, Ext) {
      assert s[0] == Ext[0];
    } else {
      ContainsHasDot(s[1..]);
    }
  }

  /**
   * `File.getName()`: the part of the path after its last name separator
   * (the whole path when it has none).
   */
  function BaseName(path: string): (r: string)
    ensures NameSeparator !in r
    ensures EndsWith(path, r)
    ensures r == path || path[|path| - |r| - 1] == NameSeparator
    decreases |path|
  {
    if path == [] then []
    else if path[|path| - 1] == NameSeparator then []
    else
      var init, last := path[..|path| - 1], path[|path| - 1];
      var r := BaseName(init) + [last];
      assert path == init + [last];
      assert path[|path| - |r|..] == init[|init| - |r| + 1..] + [last];
      r
  }

  /** `s.split(sep)` with a literal one-character separator; every segment is kept. */
  function Split(s: string, sep: char): (r: seq<string>)
    ensures |r| >= 1
    ensures forall i :: 0 <= i < |r| ==> sep !in r[i]
    decreases |s|
  {
    if s == [] then [[]]
    else
      var rest := Split(s[1..], sep);
      if s[0] == sep then [[]] + rest
      else [[s[0]] + rest[0]] + rest[1..]
  }

  /** The segments written back with the separator between them. */
  function Join(segs: seq<string>, sep: char): string
    requires |segs| >= 1
    decreases |segs|
  {
    if |segs| == 1 then segs[0] else segs[0] + [sep] + Join(segs[1..], sep)
  }

  lemma {:induction false} JoinSplit(s: string, sep: char)
    ensures Join(Split(s, sep), sep) == s
    decreases |s|
  {
    if s != [] {
      var rest := Split(s[1..], sep);
      JoinSplit(s[1..], sep);
      if s[0] == sep {
        assert Split(s, sep)[1..] == rest;
        assert s == [sep] + s[1..];
      } else if |rest| == 1 {
        assert s == [s[0]] + s[1..];
      } else {
        assert Split(s, sep)[1..] == rest[1..];
        assert s == [s[0]] + s[1..];
      }
    }
  }

  lemma {:induction false} SplitSeparatorFree(a: string, sep: char)
    requires sep !in a
    ensures Split(a, sep) == [a]
    decreases |a|
  {
    if a != [] {
      SplitSeparatorFree(a[1..], sep);
      assert a == [a[0]] + a[1..];
    }
  }

  lemma {:induction false} SplitAtSeparator(a: string, b: string, sep: char)
    requires sep !in a
    ensures Split(a + [sep] + b, sep) == [a] + Split(b, sep)
    decreases |a|
  {
    var s := a + [sep] + b;
    if a == [] {
      assert s[1..] == b;
    } else {
      assert s[1..] == a[1..] + [sep] + b;
      SplitAtSeparator(a[1..], b, sep);
      assert a == [a[0]] + a[1..];
    }
  }

  /** Splitting undoes joining, provided no segment holds the separator. */
  lemma {:induction false} SplitJoin(segs: seq<string>, sep: char)
    requires |segs| >= 1
    requires forall i :: 0 <= i < |segs| ==> sep !in segs[i]
    ensures Split(Join(segs, sep), sep) == segs
    decreases |segs|
  {
    if |segs| == 1 {
      SplitSeparatorFree(segs[0], sep);
    } else {
      SplitJoin(segs[1..], sep);
      SplitAtSeparator(segs[0], Join(segs[1..], sep), sep);
      assert segs == [segs[0]] + segs[1..];
    }
  }
}
