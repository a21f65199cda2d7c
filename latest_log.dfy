/**
 * Resolution of the newest log file of a rotating set (`get_latest_log`): the
 * files of a directory that match `prefix*.txt`, and among them the first one
 * with the greatest modification time. The directory listing is an input, in
 * the order the file system enumerates it.
 */
module LatestLog {
  import opened Wrappers

  /** A directory entry and its modification time. */
  datatype LogFile = LogFile(name: string, mtime: int)

  predicate StartsWithDot(s: string)
  {
    |s| > 0 && s[0] == '.'
  }

  /**
   * Whether a file name matches the pattern `prefix*.txt`: it starts with the
   * prefix, ends with ".txt", and the wildcard in between matches anything,
   * including nothing. As in glob, a pattern that does not start with '.'
   * never matches a name that does.
   */
  predicate MatchesLogPattern(name: string, prefix: string)
  {
    && |name| >= |prefix| + 4
    && name[..|prefix|] == prefix
    && name[|name| - 4..] == ".txt"
    && (StartsWithDot(name) ==> StartsWithDot(prefix))
  }

  /** The pattern test holds exactly of the names spelt prefix, anything, ".txt". */
  lemma MatchesLogPatternIff(name: string, prefix: string)
    ensures MatchesLogPattern(name, prefix) <==>
      (exists middle :: name == prefix + middle + ".txt") &&
      (StartsWithDot(name) ==> StartsWithDot(prefix))
  {
    if MatchesLogPattern(name, prefix) {
      var middle := name[|prefix|..|name| - 4];
      assert name == prefix + middle + ".txt";
    }
    if exists middle :: name == prefix + middle + ".txt" {
      var middle :| name == prefix + middle + ".txt";
      assert name[..|prefix|] == prefix;
      assert name[|name| - 4..] == ".txt";
    }
  }

  /** The matching files, in listing order. */
  function Glob(files: seq<LogFile>, prefix: string): (r: seq<LogFile>)
    ensures forall f :: f in r <==> f in files && MatchesLogPattern(f.name, prefix)
    ensures |r| <= |files|
  {
    if files == [] then []
    else if MatchesLogPattern(files[0].name, prefix) then [files[0]] + Glob(files[1..], prefix)
    else Glob(files[1..], prefix)
  }

  /**
   * The position `max(files, key=mtime)` picks: a scan from the left that only
   * moves on a strictly greater time, so it is the first of the greatest.
   */
  function MaxByMtime(files: seq<LogFile>): (k: nat)
    requires files != []
    ensures k < |files|
    ensures forall j :: 0 <= j < |files| ==> files[j].mtime <= files[k].mtime
    ensures forall j :: 0 <= j < k ==> files[j].mtime < files[k].mtime
  {
    if |files| == 1 then 0
    else
      var k := MaxByMtime(files[..|files| - 1]);
      if files[|files| - 1].mtime > files[k].mtime then |files| - 1 else k
  }

  /** The newest matching file, or None when no file matches. */
  function LatestLog(prefix: string, files: seq<LogFile>): (r: Option<LogFile>)
    ensures r.None? <==> forall f :: f in files ==> !MatchesLogPattern(f.name, prefix)
    ensures r.Some? ==> r.value in files && MatchesLogPattern(r.value.name, prefix)
    ensures r.Some? ==> forall f :: f in files && MatchesLogPattern(f.name, prefix) ==> f.mtime <= r.value.mtime
  {
    var logFiles := Glob(files, prefix);
    if logFiles == [] then None else Some(logFiles[MaxByMtime(logFiles)])
  }

  /** The `k`th match sits at a position `i` of the listing, and the matches listed before it are the first `k`. */
  lemma {:induction false} GlobPosition(files: seq<LogFile>, prefix: string, k: nat) returns (i: nat)
    requires k < |Glob(files, prefix)|
    ensures i < |files| && files[i] == Glob(files, prefix)[k]
    ensures Glob(files[..i], prefix) == Glob(files, prefix)[..k]
  {
    var rest := files[1..];
    if MatchesLogPattern(files[0].name, prefix) && k == 0 {
      i := 0;
    } else {
      var k' := if MatchesLogPattern(files[0].name, prefix) then k - 1 else k;
      var i' := GlobPosition(rest, prefix, k');
      i := i' + 1;
      assert files[..i][0] == files[0];
      assert files[..i][1..] == rest[..i'];
    }
  }

  /**
   * Ties go to the file listed first: the result is the file at some position
   * of the listing before which every matching file is strictly older.
   */
  lemma LatestIsFirstOfTheNewest(prefix: string, files: seq<LogFile>) returns (i: nat)
    requires LatestLog(prefix, files).Some?
    ensures i < |files| && files[i] == LatestLog(prefix, files).value
    ensures forall j :: 0 <= j < i && MatchesLogPattern(files[j].name, prefix) ==> files[j].mtime < files[i].mtime
  {
    var g := Glob(files, prefix);
    var k := MaxByMtime(g);
    i := GlobPosition(files, prefix, k);
    forall j | 0 <= j < i && MatchesLogPattern(files[j].name, prefix)
      ensures files[j].mtime < files[i].mtime
    {
      assert files[j] == files[..i][j];
      assert files[j] in Glob(files[..i], prefix);
      var m :| 0 <= m < k && g[m] == files[j];
    }
  }

  /** `os.path.join(a, b)` with '/' as separator: an absolute `b` replaces `a`. */
  function JoinPath(a: string, b: string): (p: string)
    ensures |p| >= |b| && p[|p| - |b|..] == b
    ensures |b| > 0 && b[0] == '/' ==> p == b
    ensures !(|b| > 0 && b[0] == '/') ==> (p == a + b <==> a == [] || a[|a| - 1] == '/')
    ensures (|b| > 0 && b[0] == '/') || p == a + b || p == a + "/" + b
  {
    if |b| > 0 && b[0] == '/' then b
    else if a == [] || a[|a| - 1] == '/' then a + b
    else a + "/" + b
  }

  predicate AllSlashes(s: string)
  {
    forall i :: 0 <= i < |s| ==> s[i] == '/'
  }

  /** The position just after the last '/' of `p`, or 0 when there is none (`p.rfind('/') + 1`). */
  function AfterLastSlash(p: string): (i: nat)
    ensures i <= |p|
    ensures i > 0 ==> p[i - 1] == '/'
    ensures forall j :: i <= j < |p| ==> p[j] != '/'
  {
    if p == [] then 0
    else if p[|p| - 1] == '/' then |p|
    else AfterLastSlash(p[..|p| - 1])
  }

  /** `s.rstrip('/')`: the longest prefix of `s` not ending in '/', the rest being all slashes. */
  function StripTrailingSlashes(s: string): (r: string)
    ensures |r| <= |s| && s[..|r|] == r
    ensures r == [] || r[|r| - 1] != '/'
    ensures AllSlashes(s[|r|..])
  {
    if s == [] || s[|s| - 1] != '/' then s
    else StripTrailingSlashes(s[..|s| - 1])
  }

  /** The head of `os.path.split(p)`: up to the last '/', trailing slashes removed unless it is all slashes. */
  function SplitHead(p: string): string
  {
    var head := p[..AfterLastSlash(p)];
    if head != [] && !AllSlashes(head) then StripTrailingSlashes(head) else head
  }

  /**
   * The split head is a prefix of `p` up to its last '/', the part cut off is
   * all slashes, and it is the whole of that part when that part is all
   * slashes; otherwise it does not end in '/'.
   */
  lemma SplitHeadShape(p: string)
    ensures |SplitHead(p)| <= AfterLastSlash(p) && p[..|SplitHead(p)|] == SplitHead(p)
    ensures AllSlashes(p[|SplitHead(p)|..AfterLastSlash(p)])
    ensures AllSlashes(p[..AfterLastSlash(p)]) ==> SplitHead(p) == p[..AfterLastSlash(p)]
    ensures !AllSlashes(p[..AfterLastSlash(p)]) ==> SplitHead(p) != [] && SplitHead(p)[|SplitHead(p)| - 1] != '/'
  {
  }

  /** The directory glob reports its matches under, stated on the directory alone. */
  function GlobDirectory(directory: string): (r: string)
    ensures AllSlashes(directory) ==> r == directory
    ensures !AllSlashes(directory) ==>
      r != [] && r[|r| - 1] != '/' && |r| <= |directory| && directory[..|r|] == r && AllSlashes(directory[|r|..])
  {
    if AllSlashes(directory) then directory else StripTrailingSlashes(directory)
  }

  lemma {:induction false} AfterLastSlashOfSuffix(a: string, b: string)
    requires a == [] || a[|a| - 1] == '/'
    requires forall j :: 0 <= j < |b| ==> b[j] != '/'
    ensures AfterLastSlash(a + b) == |a|
  {
    if b != [] {
      assert (a + b)[..|a + b| - 1] == a + b[..|b| - 1];
      AfterLastSlashOfSuffix(a, b[..|b| - 1]);
    } else {
      assert a + b == a;
    }
  }

  /**
   * For a prefix without '/', the head of the pattern `os.path.join(directory,
   * prefix + "*.txt")` is the directory with its trailing slashes removed
   * (kept when it is all slashes).
   */
  lemma PatternHeadIsGlobDirectory(directory: string, prefix: string)
    requires forall j :: 0 <= j < |prefix| ==> prefix[j] != '/'
    ensures SplitHead(JoinPath(directory, prefix + "*.txt")) == GlobDirectory(directory)
  {
    var b := prefix + "*.txt";
    assert forall j :: 0 <= j < |b| ==> b[j] != '/' by {
      forall j | 0 <= j < |b| ensures b[j] != '/' {
        if j >= |prefix| { assert b[j] == "*.txt"[j - |prefix|]; }
      }
    }
    if directory == [] || directory[|directory| - 1] == '/' {
      AfterLastSlashOfSuffix(directory, b);
      assert (directory + b)[..|directory|] == directory;
    } else {
      var a := directory + "/";
      assert JoinPath(directory, b) == a + b;
      AfterLastSlashOfSuffix(a, b);
      assert (a + b)[..|a|] == a;
      assert !AllSlashes(a) by { assert a[|directory| - 1] != '/'; }
      assert StripTrailingSlashes(a) == StripTrailingSlashes(directory);
    }
  }

  /** A directory spelt with extra trailing slashes yields the same paths as with none. */
  lemma TrailingSlashesCollapse(directory: string, slashes: string)
    requires directory != [] && directory[|directory| - 1] != '/'
    requires AllSlashes(slashes)
    ensures GlobDirectory(directory + slashes) == directory
  {
  }


  /** The path glob reports for a match `name` of the pattern `os.path.join(directory, prefix + "*.txt")`. */
  function GlobPath(directory: string, prefix: string, name: string): (p: string)
    ensures |p| >= |name| && p[|p| - |name|..] == name
  {
    JoinPath(SplitHead(JoinPath(directory, prefix + "*.txt")), name)
  }

  /**
   * `get_latest_log`: the path glob reports for the newest matching file, or
   * None. Glob joins each match to the head of the split pattern.
   */
  function GetLatestLog(directory: string, prefix: string, files: seq<LogFile>): (r: Option<string>)
    ensures r.None? <==> forall f :: f in files ==> !MatchesLogPattern(f.name, prefix)
    ensures r.Some? ==>
      exists f :: (f in files && MatchesLogPattern(f.name, prefix) &&
        r.value == GlobPath(directory, prefix, f.name) &&
        forall g :: g in files && MatchesLogPattern(g.name, prefix) ==> g.mtime <= f.mtime)
  {
    match LatestLog(prefix, files)
    case None => None
    case Some(f) => Some(GlobPath(directory, prefix, f.name))
  }

  /** For a prefix without '/', the path found is the newest match under `GlobDirectory(directory)`. */
  lemma LatestPathUnderGlobDirectory(directory: string, prefix: string, files: seq<LogFile>)
    requires forall j :: 0 <= j < |prefix| ==> prefix[j] != '/'
    requires LatestLog(prefix, files).Some?
    ensures GetLatestLog(directory, prefix, files) == Some(JoinPath(GlobDirectory(directory), LatestLog(prefix, files).value.name))
  {
    PatternHeadIsGlobDirectory(directory, prefix);
  }

  /** Trailing slashes on a directory do not change the path found: "logs//" resolves as "logs" does. */
  lemma TrailingSlashesDoNotMatter(directory: string, slashes: string, prefix: string, files: seq<LogFile>)
    requires directory != [] && directory[|directory| - 1] != '/'
    requires AllSlashes(slashes)
    requires forall j :: 0 <= j < |prefix| ==> prefix[j] != '/'
    ensures GetLatestLog(directory + slashes, prefix, files) == GetLatestLog(directory, prefix, files)
  {
    if LatestLog(prefix, files).Some? {
      var name := LatestLog(prefix, files).value.name;
      LatestPathUnderGlobDirectory(directory + slashes, prefix, files);
      LatestPathUnderGlobDirectory(directory, prefix, files);
      TrailingSlashesCollapse(directory, slashes);
      assert !AllSlashes(directory) by { assert directory[|directory| - 1] != '/'; }
      assert GlobDirectory(directory) == directory;
      assert GetLatestLog(directory + slashes, prefix, files) == Some(JoinPath(directory, name));
    }
  }

  /** Of two logs of the set, the later one is resolved; a file outside the set is ignored. */
  lemma NewerOfTwoWins(prefix: string, older: LogFile, other: LogFile, newer: LogFile)
    requires MatchesLogPattern(older.name, prefix) && MatchesLogPattern(newer.name, prefix)
    requires !MatchesLogPattern(other.name, prefix)
    requires older.mtime < newer.mtime
    ensures LatestLog(prefix, [older, other, newer]) == Some(newer)
  {
  }
}
