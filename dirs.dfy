/** The analyser of a directory: opening it, recognising a git repository,
    counting commits, and enumerating its files, all of them or by suffix.
    The file system is given as flags and as the entries `rglob("*")`
    yields; the `git` command is given as a function from the reference to
    its outcome. */
module Dirs {
  import opened Common
  import opened Strings

  /** One entry `rglob("*")` yields: its path, whether it is a regular file,
      and its `Path.suffix` (the final `.ext`, or empty). */
  datatype Entry = Entry(path: string, isFile: bool, suffix: string)

  /** What the file system says about the directory's path. */
  datatype Location = Location(
    present: bool,
    isDir: bool,
    /** `path / ".git"` exists and is a directory. */
    gitPresent: bool,
    gitIsDir: bool,
    /** Every entry below the directory, in enumeration order. */
    entries: seq<Entry>)

  datatype Dir = Dir(location: Location)

  /** `Dir(path)`: the path must exist and must be a directory. */
  function NewDir(loc: Location): (r: Result<Dir>)
    ensures r == Err(FileNotFoundError) <==> !loc.present
    ensures r == Err(NotADirectoryError) <==> loc.present && !loc.isDir
    ensures r.Ok? <==> loc.present && loc.isDir
    ensures r.Ok? ==> r.value.location == loc
  {
    if !loc.present then Err(FileNotFoundError)
    else if !loc.isDir then Err(NotADirectoryError)
    else Ok(Dir(loc))
  }

  /** `is_repo()`: the directory holds a `.git` directory. */
  predicate IsRepo(d: Dir)
  {
    d.location.gitPresent && d.location.gitIsDir
  }

  // ---------------------------------------------------------------------
  // n_commits

  /** How `git rev-list --count <ref>` ended: with its standard output, with
      a non-zero exit status, or without a `git` executable to run. */
  datatype GitRun = Completed(stdout: string) | Failed | GitMissing

  /** `n_commits(ref)`: refused outside a repository; otherwise the number
      `git` prints. A failed or missing `git` becomes `RuntimeError`; output
      that is not an integer raises `ValueError` from `int`, which nothing
      catches. */
  function NCommits(d: Dir, git: string -> GitRun, ref: string): (r: Result<int>)
    ensures !IsRepo(d) ==> r == Err(RuntimeError)
    ensures IsRepo(d) && !git(ref).Completed? ==> r == Err(RuntimeError)
    ensures IsRepo(d) && git(ref).Completed? ==>
      r == (match ParseInt(git(ref).stdout) case Some(n) => Ok(n) case None => Err(ValueError))
  {
    if !IsRepo(d) then Err(RuntimeError)
    else
      match git(ref)
      case Completed(out) =>
        StripIdempotent(out);
        (match ParseInt(Strip(out))
         case Some(n) => Ok(n)
         case None => Err(ValueError))
      case Failed => Err(RuntimeError)
      case GitMissing => Err(RuntimeError)
  }

  /** When `git` prints a count, `n_commits` returns that count. */
  lemma NCommitsReadsCount(d: Dir, git: string -> GitRun, ref: string, count: nat)
    requires IsRepo(d) && git(ref) == Completed(IntToString(count) + "\n")
    ensures NCommits(d, git, ref) == Ok(count)
  {
    var printed := IntToString(count);
    ParseIntOfString(count);
    StripTrailingNewline(printed);
  }

  /** A trailing newline does not change what `int` reads. */
  lemma StripTrailingNewline(s: string)
    requires s != [] && !IsSpace(s[0]) && !IsSpace(s[|s| - 1])
    ensures Strip(s + "\n") == Strip(s)
  {
    var t := s + "\n";
    assert SkipSpaces(t, 0) == 0;
    assert TrimEnd(t, 0, |t|) == |s|;
    assert t[0..|s|] == s;
    NoSpaceEndsStrip(s);
  }

  // ---------------------------------------------------------------------
  // Iterating over files

  /** The file entries among `entries`, in enumeration order. */
  function FilesOf(entries: seq<Entry>): (fs: seq<Entry>)
    ensures |fs| <= |entries|
    ensures forall e :: e in fs <==> e in entries && e.isFile
  {
    if entries == [] then []
    else (if entries[0].isFile then [entries[0]] else []) + FilesOf(entries[1..])
  }

  /** `iter(dir)`: every regular file below the directory. */
  function Files(d: Dir): seq<Entry>
  {
    FilesOf(d.location.entries)
  }

  /** The suffix `iter_files` compares with: a leading `.` is added when missing. */
  function NormaliseSuffix(suffix: string): (s: string)
    ensures StartsWith(s, ".")
    ensures s == suffix || s == "." + suffix
    ensures StartsWith(suffix, ".") ==> s == suffix
  {
    if StartsWith(suffix, ".") then suffix else "." + suffix
  }

  /** Writing the dot or leaving it out selects the same files. */
  lemma NormaliseSuffixDot(suffix: string)
    requires !StartsWith(suffix, ".")
    ensures NormaliseSuffix("." + suffix) == NormaliseSuffix(suffix)
  {
    assert ("." + suffix)[..1] == ".";
  }

  /** The entries among `fs` whose suffix is `s`, in order. */
  function WithSuffix(fs: seq<Entry>, s: string): (r: seq<Entry>)
    ensures |r| <= |fs|
    ensures forall e :: e in r <==> e in fs && e.suffix == s
  {
    if fs == [] then []
    else (if fs[0].suffix == s then [fs[0]] else []) + WithSuffix(fs[1..], s)
  }

  /** `iter_files(suffix)`: all files when no suffix is given, else the files
      whose suffix is the normalised one. */
  function IterFiles(d: Dir, suffix: Option<string>): (fs: seq<Entry>)
    ensures suffix.None? ==> fs == Files(d)
    ensures forall e :: e in fs ==> e in d.location.entries && e.isFile
    ensures suffix.Some? ==> forall e :: e in fs <==> e in Files(d) && e.suffix == NormaliseSuffix(suffix.value)
  {
    match suffix
    case None => Files(d)
    case Some(s) => WithSuffix(Files(d), NormaliseSuffix(s))
  }

  /** `n_files(suffix)`: how many files `iter_files(suffix)` yields. */
  function NFiles(d: Dir, suffix: Option<string>): (n: nat)
    ensures n == |IterFiles(d, suffix)|
    ensures n <= |Files(d)| <= |d.location.entries|
    ensures suffix.None? ==> n == |Files(d)|
  {
    |IterFiles(d, suffix)|
  }

  /** `iter_files("py")` and `iter_files(".py")` yield the same files. */
  lemma IterFilesDotOptional(d: Dir, suffix: string)
    requires !StartsWith(suffix, ".")
    ensures IterFiles(d, Some(suffix)) == IterFiles(d, Some("." + suffix))
  {
    NormaliseSuffixDot(suffix);
  }

  /** A suffix no file has yields nothing. */
  lemma NoMatchingSuffixNoFiles(d: Dir, suffix: string)
    requires forall e :: e in d.location.entries && e.isFile ==> e.suffix != NormaliseSuffix(suffix)
    ensures IterFiles(d, Some(suffix)) == [] && NFiles(d, Some(suffix)) == 0
  {
    var fs := Files(d);
    assert forall i :: 0 <= i < |fs| ==> fs[i] in fs;
    NoSuffixMatch(fs, NormaliseSuffix(suffix));
  }

  lemma {:induction false} NoSuffixMatch(fs: seq<Entry>, s: string)
    requires forall i :: 0 <= i < |fs| ==> fs[i].suffix != s
    ensures WithSuffix(fs, s) == []
  {
    if fs != [] {
      NoSuffixMatch(fs[1..], s);
    }
  }

  /** Files with two different suffixes are disjoint, so their counts add up
      to at most all files. */
  lemma {:induction false} DistinctSuffixesAtMostAll(fs: seq<Entry>, s: string, t: string)
    requires s != t
    ensures |WithSuffix(fs, s)| + |WithSuffix(fs, t)| <= |fs|
  {
    if fs != [] {
      DistinctSuffixesAtMostAll(fs[1..], s, t);
    }
  }

  lemma NFilesDistinctSuffixes(d: Dir, s: string, t: string)
    requires NormaliseSuffix(s) != NormaliseSuffix(t)
    ensures NFiles(d, Some(s)) + NFiles(d, Some(t)) <= NFiles(d, None)
  {
    DistinctSuffixesAtMostAll(Files(d), NormaliseSuffix(s), NormaliseSuffix(t));
  }

  /** Files keep their enumeration order: the files of an earlier part of
      the enumeration come before those of a later part. */
  lemma {:induction false} FilesOfAppend(a: seq<Entry>, b: seq<Entry>)
    ensures FilesOf(a + b) == FilesOf(a) + FilesOf(b)
  {
    if a == [] {
      assert a + b == b;
    } else {
      assert (a + b)[0] == a[0];
      assert (a + b)[1..] == a[1..] + b;
      FilesOfAppend(a[1..], b);
    }
  }
}
