/**
 * ClangFormatAction.findClangFormat: the directories of PATH, then three well-known locations,
 * each tried for `clang-format` and then `clang-format.exe`; the first file that exists wins, and
 * the bare name `clang-format` is the answer when none does.
 *
 * The environment and the file system are parameters: `path` and `home` are the values of PATH
 * and HOME, `separator` is the platform's path-list separator, `fileExists` says whether a file
 * exists, and `resolve(dir, name)` is the text of `dir` resolved against the child `name`
 * (java.nio's getPath, resolve and toString together).
 */
module BinaryLocator {
  import opened Wrappers

  /** How many times `separator` occurs in `s`. */
  function SeparatorCount(s: string, separator: char): nat
  {
    if s == [] then 0
    else SeparatorCount(s[..|s| - 1], separator) + (if s[|s| - 1] == separator then 1 else 0)
  }

  /**
   * Splitter.on(separator).splitToList(s): the pieces between the separators, empty pieces
   * included, so a string with n separators has n + 1 pieces.
   */
  function Split(s: string, separator: char): (parts: seq<string>)
    ensures |parts| == SeparatorCount(s, separator) + 1
  {
    if s == [] then [""]
    else
      var parts := Split(s[..|s| - 1], separator);
      var c := s[|s| - 1];
      if c == separator then parts + [""]
      else parts[..|parts| - 1] + [parts[|parts| - 1] + [c]]
  }

  /** No piece holds a separator. */
  lemma {:induction false} SplitPiecesFree(s: string, separator: char)
    ensures forall i :: 0 <= i < |Split(s, separator)| ==> separator !in Split(s, separator)[i]
  {
    if s != [] {
      var init := s[..|s| - 1];
      SplitPiecesFree(init, separator);
      var p := Split(init, separator);
      var c := s[|s| - 1];
      if c != separator {
        assert separator !in p[|p| - 1];
        assert separator !in p[|p| - 1] + [c];
        assert Split(s, separator) == p[..|p| - 1] + [p[|p| - 1] + [c]];
      }
    }
  }

  /** The pieces glued back together with the separator between neighbours. */
  function Join(parts: seq<string>, separator: char): string
    requires |parts| >= 1
  {
    if |parts| == 1 then parts[0]
    else Join(parts[..|parts| - 1], separator) + [separator] + parts[|parts| - 1]
  }

  lemma JoinExtendLast(parts: seq<string>, separator: char, x: string)
    requires |parts| >= 1
    ensures Join(parts[..|parts| - 1] + [parts[|parts| - 1] + x], separator) == Join(parts, separator) + x
  {
    var ps := parts[..|parts| - 1] + [parts[|parts| - 1] + x];
    if |parts| > 1 {
      assert ps[..|ps| - 1] == parts[..|parts| - 1];
    }
  }

  /** Splitting loses nothing: joining the pieces gives the original string back. */
  lemma {:induction false} JoinSplit(s: string, separator: char)
    ensures Join(Split(s, separator), separator) == s
  {
    if s != [] {
      var init, c := s[..|s| - 1], s[|s| - 1];
      var parts := Split(init, separator);
      JoinSplit(init, separator);
      assert init + [c] == s;
      if c == separator {
        JoinAppendEmpty(parts, separator);
      } else {
        JoinExtendLast(parts, separator, [c]);
      }
    }
  }

  /** An empty last piece adds just the separator before it. */
  lemma JoinAppendEmpty(parts: seq<string>, separator: char)
    requires |parts| >= 1
    ensures Join(parts + [""], separator) == Join(parts, separator) + [separator]
  {
    assert (parts + [""])[..|parts|] == parts;
  }

  /** Appending text without a separator only extends the last piece. */
  lemma {:induction false} SplitAppend(a: string, b: string, separator: char)
    requires separator !in b
    ensures var p := Split(a, separator);
      Split(a + b, separator) == p[..|p| - 1] + [p[|p| - 1] + b]
  {
    var p := Split(a, separator);
    if b == [] {
      assert a + b == a;
      assert p[|p| - 1] + b == p[|p| - 1];
      assert p[..|p| - 1] + [p[|p| - 1]] == p;
    } else {
      var b', c := b[..|b| - 1], b[|b| - 1];
      assert separator !in b' && c != separator;
      SplitAppend(a, b', separator);
      assert (a + b)[..|a + b| - 1] == a + b' && (a + b)[|a + b| - 1] == c;
      var q := Split(a + b', separator);
      assert Split(a + b, separator) == q[..|q| - 1] + [q[|q| - 1] + [c]];
      assert q[..|q| - 1] == p[..|p| - 1];
      assert q[|q| - 1] == p[|p| - 1] + b';
      assert b' + [c] == b;
      assert (p[|p| - 1] + b') + [c] == p[|p| - 1] + (b' + [c]);
    }
  }

  /** Pieces free of the separator are recovered by splitting what Join made of them. */
  lemma {:induction false} SplitJoin(parts: seq<string>, separator: char)
    requires |parts| >= 1
    requires forall i :: 0 <= i < |parts| ==> separator !in parts[i]
    ensures Split(Join(parts, separator), separator) == parts
  {
    var last := parts[|parts| - 1];
    if |parts| == 1 {
      SplitAppend([], last, separator);
      assert [] + last == last;
    } else {
      var init := parts[..|parts| - 1];
      assert parts == init + [last];
      forall i | 0 <= i < |init|
        ensures separator !in init[i]
      {
        assert init[i] == parts[i];
      }
      SplitJoin(init, separator);
      SplitJoinLast(init, last, separator);
    }
  }

  lemma SplitJoinLast(init: seq<string>, last: string, separator: char)
    requires |init| >= 1 && separator !in last
    requires Split(Join(init, separator), separator) == init
    ensures Split(Join(init + [last], separator), separator) == init + [last]
  {
    var a := Join(init, separator) + [separator];
    assert (init + [last])[..|init|] == init;
    assert Join(init + [last], separator) == a + last;
    SplitAfterSeparator(Join(init, separator), separator);
    SplitAppend(a, last, separator);
    var p := init + [""];
    assert p[..|p| - 1] == init;
    assert p[|p| - 1] + last == last;
  }

  /** A trailing separator opens a new, empty piece. */
  lemma SplitAfterSeparator(a: string, separator: char)
    ensures Split(a + [separator], separator) == Split(a, separator) + [""]
  {
    assert (a + [separator])[..|a|] == a;
  }

  const BinaryName := "clang-format"
  const WindowsBinaryName := "clang-format.exe"

  /** The file names tried in every directory, in order. */
  const BinaryNames := [BinaryName, WindowsBinaryName]

  /** PATH's directories first, then /usr/local/bin, $HOME/bin and $HOME/.homebrew/bin. */
  function SearchDirectories(path: string, separator: char, home: string,
                             resolve: (string, string) -> string): (dirs: seq<string>)
    ensures var pathDirs := Split(path, separator);
      |dirs| == |pathDirs| + 3 && dirs[..|pathDirs|] == pathDirs &&
      dirs[|pathDirs|..] == ["/usr/local/bin", resolve(home, "bin"), resolve(resolve(home, ".homebrew"), "bin")]
  {
    Split(path, separator) +
      ["/usr/local/bin", resolve(home, "bin"), resolve(resolve(home, ".homebrew"), "bin")]
  }

  /** Every directory contributes its two candidates, directory by directory. */
  function Candidates(dirs: seq<string>, resolve: (string, string) -> string): (c: seq<string>)
    ensures |c| == 2 * |dirs|
  {
    if dirs == [] then []
    else [resolve(dirs[0], BinaryName), resolve(dirs[0], WindowsBinaryName)] + Candidates(dirs[1..], resolve)
  }

  /** Candidate `2 * k + n` is name `n` of directory `k`. */
  lemma {:induction false} CandidateAt(dirs: seq<string>, resolve: (string, string) -> string, k: nat, n: nat)
    requires k < |dirs| && n < 2
    ensures Candidates(dirs, resolve)[2 * k + n] == resolve(dirs[k], BinaryNames[n])
  {
    if k > 0 {
      CandidateAt(dirs[1..], resolve, k - 1, n);
      assert dirs[1..][k - 1] == dirs[k];
    }
  }

  /** Candidate `i` exists and none before it does. */
  predicate FirstExisting(candidates: seq<string>, fileExists: string -> bool, i: int)
  {
    0 <= i < |candidates| && fileExists(candidates[i]) &&
    forall j :: 0 <= j < i ==> !fileExists(candidates[j])
  }

  /** Stream.filter(exists).findFirst(): the first candidate that exists, if any. */
  function FindFirst(candidates: seq<string>, fileExists: string -> bool): (r: Option<string>)
    ensures r.None? <==> forall i :: 0 <= i < |candidates| ==> !fileExists(candidates[i])
    ensures r.Some? ==> exists i :: FirstExisting(candidates, fileExists, i) && r.value == candidates[i]
  {
    if candidates == [] then None
    else if fileExists(candidates[0]) then
      assert FirstExisting(candidates, fileExists, 0);
      Some(candidates[0])
    else
      var r := FindFirst(candidates[1..], fileExists);
      assert r.Some? ==> exists i :: FirstExisting(candidates, fileExists, i) && r.value == candidates[i] by {
        if r.Some? {
          var i :| FirstExisting(candidates[1..], fileExists, i) && r.value == candidates[1..][i];
          forall j | 0 <= j < i + 1
            ensures !fileExists(candidates[j])
          {
            if j > 0 { assert candidates[j] == candidates[1..][j - 1]; }
          }
          assert FirstExisting(candidates, fileExists, i + 1);
        }
      }
      r
  }

  /** The binary to launch: the first existing candidate, or the bare name. */
  function FindClangFormat(path: string, separator: char, home: string,
                           resolve: (string, string) -> string, fileExists: string -> bool): (r: string)
    ensures r == BinaryName || fileExists(r)
  {
    FindFirst(Candidates(SearchDirectories(path, separator, home, resolve), resolve), fileExists)
      .GetOr(BinaryName)
  }

  /**
   * Name `n` of directory `k` exists, and no name of an earlier directory, nor the plain name
   * before the `.exe` name in the same directory, does.
   */
  predicate FirstHit(dirs: seq<string>, resolve: (string, string) -> string, fileExists: string -> bool,
                     k: int, n: int)
  {
    0 <= k < |dirs| && 0 <= n < 2 && fileExists(resolve(dirs[k], BinaryNames[n])) &&
    forall k', n' :: 0 <= k' < |dirs| && 0 <= n' < 2 && (k' < k || (k' == k && n' < n)) ==>
      !fileExists(resolve(dirs[k'], BinaryNames[n']))
  }

  /**
   * The search order: when no directory holds either file the answer is the bare name; otherwise
   * it is an existing file of some directory, and every directory before it, and the plain name
   * before the `.exe` name in the same directory, does not exist.
   */
  lemma FindClangFormatFirstHit(path: string, separator: char, home: string,
                                resolve: (string, string) -> string, fileExists: string -> bool)
    ensures var dirs := SearchDirectories(path, separator, home, resolve);
      var r := FindClangFormat(path, separator, home, resolve, fileExists);
      ((forall k, n :: 0 <= k < |dirs| && 0 <= n < 2 ==> !fileExists(resolve(dirs[k], BinaryNames[n]))) ==>
         r == BinaryName) &&
      ((exists k, n :: 0 <= k < |dirs| && 0 <= n < 2 && fileExists(resolve(dirs[k], BinaryNames[n]))) ==>
         exists k, n :: FirstHit(dirs, resolve, fileExists, k, n) && r == resolve(dirs[k], BinaryNames[n]))
  {
    var dirs := SearchDirectories(path, separator, home, resolve);
    FirstHitIn(dirs, resolve, fileExists);
  }

  /** FindClangFormatFirstHit for any list of directories. */
  lemma FirstHitIn(dirs: seq<string>, resolve: (string, string) -> string, fileExists: string -> bool)
    ensures var r := FindFirst(Candidates(dirs, resolve), fileExists).GetOr(BinaryName);
      ((forall k, n :: 0 <= k < |dirs| && 0 <= n < 2 ==> !fileExists(resolve(dirs[k], BinaryNames[n]))) ==>
         r == BinaryName) &&
      ((exists k, n :: 0 <= k < |dirs| && 0 <= n < 2 && fileExists(resolve(dirs[k], BinaryNames[n]))) ==>
         exists k, n :: FirstHit(dirs, resolve, fileExists, k, n) && r == resolve(dirs[k], BinaryNames[n]))
  {
    if FindFirst(Candidates(dirs, resolve), fileExists).Some? {
      FoundHit(dirs, resolve, fileExists);
    } else {
      NoHit(dirs, resolve, fileExists);
    }
  }

  /** A candidate found by the search is the first hit of some directory and name. */
  lemma FoundHit(dirs: seq<string>, resolve: (string, string) -> string, fileExists: string -> bool)
    requires FindFirst(Candidates(dirs, resolve), fileExists).Some?
    ensures exists k, n :: (FirstHit(dirs, resolve, fileExists, k, n) &&
      FindFirst(Candidates(dirs, resolve), fileExists).value == resolve(dirs[k], BinaryNames[n]))
  {
    var c := Candidates(dirs, resolve);
    var found := FindFirst(c, fileExists);
    var i :| FirstExisting(c, fileExists, i) && found.value == c[i];
    var k, n := Decompose(i);
    CandidateAt(dirs, resolve, k, n);
    NoEarlierHit(dirs, resolve, fileExists, i, k, n);
  }

  /** Candidate `2 * k + n` is the first that exists: no earlier directory or name holds one. */
  lemma NoEarlierHit(dirs: seq<string>, resolve: (string, string) -> string, fileExists: string -> bool,
                     i: int, k: int, n: int)
    requires 0 <= k < |dirs| && 0 <= n < 2 && i == 2 * k + n
    requires forall j :: 0 <= j < i ==> !fileExists(Candidates(dirs, resolve)[j])
    requires fileExists(resolve(dirs[k], BinaryNames[n]))
    ensures FirstHit(dirs, resolve, fileExists, k, n)
  {
    forall k', n' | 0 <= k' < |dirs| && 0 <= n' < 2 && (k' < k || (k' == k && n' < n))
      ensures !fileExists(resolve(dirs[k'], BinaryNames[n']))
    {
      assert 2 * k' + n' < i;
      EarlierMissing(dirs, resolve, fileExists, i, k', n');
    }
  }

  /** A name of a directory whose candidate index lies before `i` does not exist. */
  lemma EarlierMissing(dirs: seq<string>, resolve: (string, string) -> string, fileExists: string -> bool,
                       i: int, k: nat, n: nat)
    requires k < |dirs| && n < 2 && 2 * k + n < i <= 2 * |dirs|
    requires forall j :: 0 <= j < i ==> !fileExists(Candidates(dirs, resolve)[j])
    ensures !fileExists(resolve(dirs[k], BinaryNames[n]))
  {
    CandidateAt(dirs, resolve, k, n);
  }

  /** No candidate exists, so no name exists in any directory. */
  lemma NoHit(dirs: seq<string>, resolve: (string, string) -> string, fileExists: string -> bool)
    requires forall j :: 0 <= j < |Candidates(dirs, resolve)| ==> !fileExists(Candidates(dirs, resolve)[j])
    ensures forall k, n :: 0 <= k < |dirs| && 0 <= n < 2 ==> !fileExists(resolve(dirs[k], BinaryNames[n]))
  {
    forall k, n | 0 <= k < |dirs| && 0 <= n < 2
      ensures !fileExists(resolve(dirs[k], BinaryNames[n]))
    {
      CandidateAt(dirs, resolve, k, n);
    }
  }

  /** Candidate `i` belongs to directory `k` with name `n`. */
  lemma Decompose(i: nat) returns (k: nat, n: nat)
    ensures n < 2 && i == 2 * k + n
  {
    k, n := i / 2, i % 2;
  }
}
