/** The path-string helpers of `ExecPathUtils`: separator collapsing (`normalizePath`),
    joining (`pathJoin`), the directory part of the executable's path
    (`getExecutableDir`) and the argument check of `getFileInExeDir`. The separator
    (`'/'`, or `'\\'` on Windows) and the executable's path are parameters. */
module ExecPathUtils {
  import opened Wrappers

  // ---------------------------------------------------------------- normalizePath

  /** Position `i` of `path` survives normalisation unless it is a separator directly
      after a separator. */
  predicate Kept(path: string, sep: char, i: nat)
    requires i < |path|
  {
    !(i > 0 && path[i] == sep && path[i - 1] == sep)
  }

  /** What `normalizePath` has built after its first `n` iterations. */
  function NormalizePrefix(path: string, sep: char, n: nat): string
    requires n <= |path|
  {
    if n == 0 then []
    else NormalizePrefix(path, sep, n - 1) + (if Kept(path, sep, n - 1) then [path[n - 1]] else [])
  }

  function Normalize(path: string, sep: char): string
  {
    NormalizePrefix(path, sep, |path|)
  }

  /** `normalizePath`: copy the path, skipping each separator that follows a separator. */
  method NormalizePath(path: string, sep: char) returns (result: string)
    ensures result == Normalize(path, sep)
  {
    result := "";
    for i := 0 to |path|
      invariant result == NormalizePrefix(path, sep, i)
    {
      if !(i > 0 && path[i] == sep && path[i - 1] == sep) {
        result := result + [path[i]];
      }
    }
  }

  /** No separator directly follows another. */
  predicate NoAdjacentSeparators(s: string, sep: char)
  {
    forall i | 0 < i < |s| :: !(s[i] == sep && s[i - 1] == sep)
  }

  /** The characters other than the separator, in order. */
  function NonSeparators(s: string, sep: char): string
  {
    if s == [] then [] else NonSeparators(s[..|s| - 1], sep) + (if s[|s| - 1] == sep then [] else [s[|s| - 1]])
  }

  lemma NonSeparatorsAppend(s: string, c: char, sep: char)
    ensures NonSeparators(s + [c], sep) == NonSeparators(s, sep) + (if c == sep then [] else [c])
  {
    assert (s + [c])[..|s + [c]| - 1] == s;
  }

  /** The prefix built so far ends with the last character read, and never holds two
      adjacent separators; it is never longer than what was read, and holds the same
      non-separator characters. */
  lemma {:induction false} NormalizePrefixFacts(path: string, sep: char, n: nat)
    requires n <= |path|
    ensures var r := NormalizePrefix(path, sep, n);
      |r| <= n && (n > 0 ==> |r| > 0 && r[|r| - 1] == path[n - 1])
      && NoAdjacentSeparators(r, sep)
      && NonSeparators(r, sep) == NonSeparators(path[..n], sep)
  {
    if n > 0 {
      NormalizePrefixFacts(path, sep, n - 1);
      var p := NormalizePrefix(path, sep, n - 1);
      var r := NormalizePrefix(path, sep, n);
      assert path[..n] == path[..n - 1] + [path[n - 1]];
      NonSeparatorsAppend(path[..n - 1], path[n - 1], sep);
      if Kept(path, sep, n - 1) {
        assert r == p + [path[n - 1]];
        NonSeparatorsAppend(p, path[n - 1], sep);
        forall i | 0 < i < |r| ensures !(r[i] == sep && r[i - 1] == sep) {
          if i < |p| {
            assert r[i] == p[i] && r[i - 1] == p[i - 1];
          }
        }
      } else {
        assert r == p;
      }
    }
  }

  /** The output never holds two adjacent separators. */
  lemma NormalizeHasNoAdjacentSeparators(path: string, sep: char)
    ensures NoAdjacentSeparators(Normalize(path, sep), sep)
  {
    NormalizePrefixFacts(path, sep, |path|);
  }

  /** Only separators are removed: the other characters stay, in order; the output is no
      longer than the input; the first and last characters are kept; empty stays empty. */
  lemma NormalizeRemovesOnlySeparators(path: string, sep: char)
    ensures NonSeparators(Normalize(path, sep), sep) == NonSeparators(path, sep)
    ensures |Normalize(path, sep)| <= |path|
    ensures path == [] <==> Normalize(path, sep) == []
    ensures path != [] ==> Normalize(path, sep)[0] == path[0]
    ensures path != [] ==> Normalize(path, sep)[|Normalize(path, sep)| - 1] == path[|path| - 1]
  {
    NormalizePrefixFacts(path, sep, |path|);
    assert path[..|path|] == path;
    if path != [] {
      NormalizePrefixFacts(path, sep, 1);
      PrefixGrows(path, sep, 1, |path|);
    }
  }

  /** Later iterations only append. */
  lemma {:induction false} PrefixGrows(path: string, sep: char, m: nat, n: nat)
    requires m <= n <= |path|
    ensures NormalizePrefix(path, sep, m) <= NormalizePrefix(path, sep, n)
    decreases n - m
  {
    if m < n {
      PrefixGrows(path, sep, m, n - 1);
    }
  }

  /** A path with no adjacent separators is left as it is, and only such a path is: the
      fixed points of `normalizePath` are exactly its outputs. */
  lemma NormalizeFixedPoints(path: string, sep: char)
    ensures Normalize(path, sep) == path <==> NoAdjacentSeparators(path, sep)
  {
    if NoAdjacentSeparators(path, sep) {
      KeepsAll(path, sep, |path|);
      assert path[..|path|] == path;
    } else {
      NormalizeHasNoAdjacentSeparators(path, sep);
    }
  }

  lemma {:induction false} KeepsAll(path: string, sep: char, n: nat)
    requires n <= |path| && NoAdjacentSeparators(path, sep)
    ensures NormalizePrefix(path, sep, n) == path[..n]
  {
    if n > 0 {
      KeepsAll(path, sep, n - 1);
      assert path[..n] == path[..n - 1] + [path[n - 1]];
    }
  }

  /** Normalising twice is normalising once. */
  lemma NormalizeIdempotent(path: string, sep: char)
    ensures Normalize(Normalize(path, sep), sep) == Normalize(path, sep)
  {
    NormalizeHasNoAdjacentSeparators(path, sep);
    NormalizeFixedPoints(Normalize(path, sep), sep);
  }

  // ---------------------------------------------------------------- pathJoin

  /** The string `pathJoin` builds before normalising it: the directory, a separator
      unless it already ends in one, and the file name less one leading separator. */
  function Joined(dir: string, filename: string, sep: char): string
    requires dir != [] && filename != []
  {
    (if dir[|dir| - 1] != sep then dir + [sep] else dir)
    + (if filename[0] == sep then filename[1..] else filename)
  }

  function JoinResult(dir: string, filename: string, sep: char): string
  {
    if dir == [] then filename
    else if filename == [] then dir
    else Normalize(Joined(dir, filename, sep), sep)
  }

  /** `pathJoin`. */
  method PathJoin(dir: string, filename: string, sep: char) returns (r: string)
    ensures r == JoinResult(dir, filename, sep)
  {
    if dir == [] {
      return filename;
    }
    if filename == [] {
      return dir;
    }
    var result := dir;
    if result[|result| - 1] != sep {
      result := result + [sep];
    }
    if filename != [] && filename[0] == sep {
      result := result + filename[1..];
    } else {
      result := result + filename;
    }
    r := NormalizePath(result, sep);
  }

  /** An empty side returns the other side untouched (not normalised). */
  lemma JoinWithEmptySide(dir: string, filename: string, sep: char)
    ensures JoinResult("", filename, sep) == filename
    ensures JoinResult(dir, "", sep) == dir
  {
  }

  /** With both sides present: no adjacent separators, the non-separator characters of
      the directory followed by those of the file name, and the directory's characters
      first. */
  lemma JoinBothSides(dir: string, filename: string, sep: char)
    requires dir != [] && filename != []
    ensures var r := JoinResult(dir, filename, sep);
      NoAdjacentSeparators(r, sep)
      && NonSeparators(r, sep) == NonSeparators(dir, sep) + NonSeparators(filename, sep)
      && |r| > 0 && r[0] == dir[0]
  {
    var j := Joined(dir, filename, sep);
    NormalizeHasNoAdjacentSeparators(j, sep);
    NormalizeRemovesOnlySeparators(j, sep);
    JoinedParts(dir, filename, sep);
  }

  /** Before normalising, the joined string starts with the directory and holds the
      non-separator characters of both sides. */
  lemma JoinedParts(dir: string, filename: string, sep: char)
    requires dir != [] && filename != []
    ensures var j := Joined(dir, filename, sep);
      j != [] && j[0] == dir[0]
      && NonSeparators(j, sep) == NonSeparators(dir, sep) + NonSeparators(filename, sep)
  {
    var head := if dir[|dir| - 1] != sep then dir + [sep] else dir;
    var tail := if filename[0] == sep then filename[1..] else filename;
    assert Joined(dir, filename, sep) == head + tail;
    NonSeparatorsConcat(head, tail, sep);
    assert NonSeparators(head, sep) == NonSeparators(dir, sep) by {
      if dir[|dir| - 1] != sep {
        NonSeparatorsAppend(dir, sep, sep);
      }
    }
    assert NonSeparators(tail, sep) == NonSeparators(filename, sep) by {
      if filename[0] == sep {
        assert filename == [sep] + filename[1..];
        NonSeparatorsConcat([sep], filename[1..], sep);
        NonSeparatorsAppend([], sep, sep);
        assert [] + [sep] == [sep];
      }
    }
  }

  lemma {:induction false} NonSeparatorsConcat(a: string, b: string, sep: char)
    ensures NonSeparators(a + b, sep) == NonSeparators(a, sep) + NonSeparators(b, sep)
    decreases |b|
  {
    if b == [] {
      assert a + b == a;
    } else {
      var b0 := b[..|b| - 1];
      assert a + b == (a + b0) + [b[|b| - 1]];
      assert b == b0 + [b[|b| - 1]];
      NonSeparatorsConcat(a, b0, sep);
      NonSeparatorsAppend(a + b0, b[|b| - 1], sep);
      NonSeparatorsAppend(b0, b[|b| - 1], sep);
    }
  }

  /** Joining a clean directory and a clean relative name puts exactly one separator
      between them. */
  lemma JoinCleanParts(dir: string, filename: string, sep: char)
    requires dir != [] && filename != []
    requires NoAdjacentSeparators(dir, sep) && NoAdjacentSeparators(filename, sep)
    requires dir[|dir| - 1] != sep && filename[0] != sep
    ensures JoinResult(dir, filename, sep) == dir + [sep] + filename
  {
    var j := dir + [sep] + filename;
    assert Joined(dir, filename, sep) == j;
    forall i | 0 < i < |j| ensures !(j[i] == sep && j[i - 1] == sep) {
      if i < |dir| {
        assert j[i] == dir[i] && j[i - 1] == dir[i - 1];
      } else if i == |dir| {
        assert j[i - 1] == dir[|dir| - 1];
      } else if i == |dir| + 1 {
        assert j[i] == filename[0];
      } else {
        assert j[i] == filename[i - |dir| - 1] && j[i - 1] == filename[i - |dir| - 2];
      }
    }
    NormalizeFixedPoints(j, sep);
  }

  // ---------------------------------------------------------------- getExecutableDir

  /** `find_last_of(c)`: the last position holding `c`. */
  function FindLast(s: string, c: char): (r: Option<nat>)
    ensures r.Some? ==> r.value < |s| && s[r.value] == c && forall j | r.value < j < |s| :: s[j] != c
    ensures r.None? ==> forall j | 0 <= j < |s| :: s[j] != c
  {
    if s == [] then None
    else if s[|s| - 1] == c then Some(|s| - 1)
    else FindLast(s[..|s| - 1], c)
  }

  /** The directory logic of `getExecutableDir` on the executable's path: everything
      before the last separator, or `"."` when there is none. */
  function ExecutableDir(exePath: string, sep: char): (r: string)
    ensures sep !in exePath ==> r == "."
    ensures sep in exePath ==>
      && |r| < |exePath| && r == exePath[..|r|] && exePath[|r|] == sep
      && forall j | |r| < j < |exePath| :: exePath[j] != sep
  {
    match FindLast(exePath, sep)
    case None => "."
    case Some(p) => exePath[..p]
  }

  /** The directory of `dir + sep + name` is `dir` when `name` holds no separator; a bare
      name lives in `"."`. */
  lemma DirectoryOfPath(dir: string, name: string, sep: char)
    requires forall j | 0 <= j < |name| :: name[j] != sep
    ensures ExecutableDir(dir + [sep] + name, sep) == dir
    ensures ExecutableDir(name, sep) == "."
  {
    var p := dir + [sep] + name;
    forall j | |dir| < j < |p| ensures p[j] != sep {
      assert p[j] == name[j - |dir| - 1];
    }
    assert p[|dir|] == sep;
    FindLastIs(p, sep, |dir|);
    assert p[..|dir|] == dir;
  }

  lemma {:induction false} FindLastIs(s: string, c: char, i: nat)
    requires i < |s| && s[i] == c && forall j | i < j < |s| :: s[j] != c
    ensures FindLast(s, c) == Some(i)
  {
    if i < |s| - 1 {
      assert s[|s| - 1] != c;
      FindLastIs(s[..|s| - 1], c, i);
    }
  }

  /** An executable in the root directory gets the empty string as its directory (the
      text before the only separator), not `"/"`. */
  lemma RootExecutableDir()
    ensures ExecutableDir("/app", '/') == ""
    ensures FileInExeDir("config.ini", "/app", '/') == Success("config.ini")
  {
    assert "/app"[0] == '/';
    forall j | 0 < j < 4 ensures "/app"[j] != '/' { }
    FindLastIs("/app", '/', 0);
  }

  // ---------------------------------------------------------------- getFileInExeDir

  /** `getFileInExeDir` on the executable's path: an empty name is an error; any other
      name, `..` included, is joined to the executable's directory. */
  function FileInExeDir(filename: string, exePath: string, sep: char): Result<string>
  {
    if filename == [] then Failure("Filename cannot be empty")
    else Success(JoinResult(ExecutableDir(exePath, sep), filename, sep))
  }

  method GetFileInExeDir(filename: string, exePath: string, sep: char) returns (r: Result<string>)
    ensures r == FileInExeDir(filename, exePath, sep)
  {
    if filename == [] {
      return Failure("Filename cannot be empty");
    }
    var exeDir := ExecutableDir(exePath, sep);
    var joined := PathJoin(exeDir, filename, sep);
    r := Success(joined);
  }

  /** The only rejected name is the empty one; a name that climbs with `..` is accepted. */
  lemma FileInExeDirChecks(filename: string, exePath: string, sep: char)
    ensures FileInExeDir(filename, exePath, sep).Failure? <==> filename == []
    ensures FileInExeDir("../secret", exePath, sep).Success?
    ensures filename != [] ==>
      FileInExeDir(filename, exePath, sep).value == JoinResult(ExecutableDir(exePath, sep), filename, sep)
  {
  }

  /** For an executable at `dir + sep + exe` (clean, not in the root) and a clean relative
      name, the file is `dir + sep + filename`. */
  lemma FileNextToExecutable(dir: string, exe: string, filename: string, sep: char)
    requires dir != [] && filename != [] && forall j | 0 <= j < |exe| :: exe[j] != sep
    requires NoAdjacentSeparators(dir, sep) && NoAdjacentSeparators(filename, sep)
    requires dir[|dir| - 1] != sep && filename[0] != sep
    ensures FileInExeDir(filename, dir + [sep] + exe, sep) == Success(dir + [sep] + filename)
  {
    DirectoryOfPath(dir, exe, sep);
    JoinCleanParts(dir, filename, sep);
  }
}
