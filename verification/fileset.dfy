/**
  `FileSet`: the files below a base directory that pass an include/exclude
  filter of shell patterns. The directory walk is an input sequence of
  `(dirpath, filenames)` entries in the order `os.walk` produces them, and
  the platform's path separator is a parameter.
 */
module FileSets {
  import opened Wrappers
  import opened Glob

  /** Patterns excluded from every file set. */
  const DefaultExcludes: seq<string> := ["CVS/*", "*/CVS/*", ".svn/*", "*/.svn/*", ".DS_Store", "Thumbs.db"]

  /** One step of the directory walk: a directory and the files directly in it. */
  datatype WalkEntry = WalkEntry(dirpath: string, filenames: seq<string>)

  /**
    A walked file: its path relative to the base directory as the platform
    writes it, the same path with `/` as separator, and its bare name.
   */
  datatype Candidate = Candidate(filepath: string, nfilepath: string, filename: string)

  datatype FileSet = FileSet(basedir: string, includes: seq<string>, excludes: seq<string>, files: seq<string>)

  /** `dirpath[len(basedir) + 1:]`, empty when the slice starts past the end. */
  function RelativeDir(basedir: string, dirpath: string): (r: string)
    ensures |r| <= |dirpath|
    ensures r == dirpath[|dirpath| - |r|..]
    ensures |basedir| < |dirpath| ==> |r| == |dirpath| - |basedir| - 1
  {
    if |basedir| + 1 <= |dirpath| then dirpath[|basedir| + 1..] else []
  }

  /** The base directory itself is relative path `''`; a directory below it loses the base and one separator. */
  lemma RelativeDirOfWalk(basedir: string, sep: char, rel: string)
    ensures RelativeDir(basedir, basedir) == []
    ensures RelativeDir(basedir, basedir + [sep] + rel) == rel
  {
    assert (basedir + [sep] + rel)[|basedir| + 1..] == rel;
  }

  /**
    `os.path.join(dir, name)` for a relative `name`: nothing is added to an
    empty directory or one already ending in the separator. Only the one
    platform separator is recognised; Windows' `/` alternative is not.
   */
  function JoinPath(sep: char, dir: string, name: string): (r: string)
    ensures |r| == |dir| + |name| + (if dir == [] || dir[|dir| - 1] == sep then 0 else 1)
    ensures r[..|dir|] == dir && r[|r| - |name|..] == name
    ensures |r| == |dir| + |name| + 1 ==> r[|dir|] == sep
  {
    if dir == [] || dir[|dir| - 1] == sep then dir + name else dir + [sep] + name
  }

  /** Every separator of `path` turned into `/`; a no-op when the separator already is `/`. */
  function Normalize(sep: char, path: string): (r: string)
    ensures |r| == |path|
    ensures sep != '/' ==> sep !in r
    ensures forall i :: 0 <= i < |path| && path[i] != sep ==> r[i] == path[i]
    ensures forall i :: 0 <= i < |path| && path[i] == sep ==> r[i] == '/'
  {
    if sep == '/' then path
    else seq(|path|, i requires 0 <= i < |path| => if path[i] == sep then '/' else path[i])
  }

  /** The files of one walk entry, in the order listed. */
  function EntryCandidates(sep: char, rel: string, names: seq<string>): (cs: seq<Candidate>)
    ensures |cs| == |names|
    ensures forall i :: 0 <= i < |names| ==> cs[i].filename == names[i]
    ensures forall i :: 0 <= i < |names| ==>
      cs[i].filepath == JoinPath(sep, rel, names[i]) && cs[i].nfilepath == Normalize(sep, cs[i].filepath)
  {
    seq(|names|, i requires 0 <= i < |names| =>
      var fp := JoinPath(sep, rel, names[i]);
      Candidate(fp, Normalize(sep, fp), names[i]))
  }

  /** Every walked file, in walk order. */
  function Candidates(basedir: string, sep: char, walk: seq<WalkEntry>): (cs: seq<Candidate>)
  {
    if walk == [] then []
    else
      EntryCandidates(sep, RelativeDir(basedir, walk[0].dirpath), walk[0].filenames)
        + Candidates(basedir, sep, walk[1..])
  }

  /** Every file name of the walk gives exactly one candidate. */
  lemma {:induction false} CandidatesCount(basedir: string, sep: char, walk: seq<WalkEntry>)
    ensures |Candidates(basedir, sep, walk)| == Files(walk)
    decreases |walk|
  {
    if walk != [] {
      CandidatesCount(basedir, sep, walk[1..]);
    }
  }

  function Files(walk: seq<WalkEntry>): nat {
    if walk == [] then 0 else |walk[0].filenames| + Files(walk[1..])
  }

  /** Whether pattern `p` compiles. */
  predicate Valid(p: string) {
    Translate(p).Ok?
  }

  predicate AllValid(ps: seq<string>) {
    forall i :: 0 <= i < |ps| ==> Valid(ps[i])
  }

  /** Pattern `p` compiles and matches the normalised path or the bare name. */
  predicate Hits(p: string, c: Candidate) {
    FnMatchCase(c.nfilepath, p) == Ok(true) || FnMatchCase(c.filename, p) == Ok(true)
  }

  predicate AnyHits(ps: seq<string>, c: Candidate) {
    exists i :: 0 <= i < |ps| && Hits(ps[i], c)
  }

  /**
    The declarative filter: included when there are no include patterns or
    one of them hits; kept when included and no exclude pattern hits.
   */
  predicate Kept(includes: seq<string>, excludes: seq<string>, c: Candidate) {
    (includes == [] || AnyHits(includes, c)) && !AnyHits(excludes, c)
  }

  /**
    One of the two pattern loops: the patterns are tried in order and the
    first hit stops the loop; a pattern that does not compile raises.
   */
  function AnyHit(ps: seq<string>, c: Candidate): (r: Result<bool>)
    ensures r.Ok? ==> (r.value <==> AnyHits(ps, c))
    ensures AllValid(ps) ==> r.Ok?
    ensures r.Err? ==> exists i :: 0 <= i < |ps| && !Valid(ps[i])
  {
    if ps == [] then Ok(false)
    else
      match Translate(ps[0])
      case Err(m) => Err(m)
      case Ok(ts) =>
        if MatchTokens(ts, c.nfilepath) || MatchTokens(ts, c.filename) then Ok(true)
        else
          var r := AnyHit(ps[1..], c);
          assert forall i :: 0 <= i < |ps| - 1 ==> ps[1..][i] == ps[i + 1];
          assert r.Ok? ==> (AnyHits(ps[1..], c) <==> AnyHits(ps, c));
          r
  }

  /** The verdict of the constructor's loop body on one walked file. */
  function Decide(includes: seq<string>, excludes: seq<string>, c: Candidate): (r: Result<bool>)
    ensures r.Ok? ==> (r.value <==> Kept(includes, excludes, c))
    ensures AllValid(includes) && AllValid(excludes) ==> r.Ok?
  {
    var included := if includes == [] then Ok(true) else AnyHit(includes, c);
    match included
    case Err(m) => Err(m)
    case Ok(false) => Ok(false)
    case Ok(true) =>
      match AnyHit(excludes, c)
      case Err(m) => Err(m)
      case Ok(excluded) => Ok(!excluded)
  }

  /** The reference list: the paths of the kept candidates, in order. */
  function KeptPaths(includes: seq<string>, excludes: seq<string>, cs: seq<Candidate>): seq<string> {
    if cs == [] then []
    else (if Kept(includes, excludes, cs[0]) then [cs[0].filepath] else []) + KeptPaths(includes, excludes, cs[1..])
  }

  /** The constructor's walk loop: each kept file's path is appended to the list, in walk order. */
  function Collect(includes: seq<string>, excludes: seq<string>, cs: seq<Candidate>): (r: Result<seq<string>>)
    ensures r.Ok? ==> r.value == KeptPaths(includes, excludes, cs)
    ensures AllValid(includes) && AllValid(excludes) ==> r.Ok?
  {
    if cs == [] then Ok([])
    else
      match Decide(includes, excludes, cs[0])
      case Err(m) => Err(m)
      case Ok(keep) =>
        match Collect(includes, excludes, cs[1..])
        case Err(m) => Err(m)
        case Ok(rest) => Ok((if keep then [cs[0].filepath] else []) + rest)
  }

  /**
    `FileSet(basedir, include, exclude)` over the walk: no include list
    means everything is included; the exclude list is the defaults followed
    by the given patterns.
   */
  function NewFileSet(basedir: string, sep: char, includes: Option<seq<string>>, excludes: Option<seq<string>>,
                      walk: seq<WalkEntry>): (r: Result<FileSet>)
    ensures r.Ok? ==> r.value.includes == includes.GetOr([])
    ensures r.Ok? ==> r.value.excludes == DefaultExcludes + excludes.GetOr([])
    ensures r.Ok? ==>
      r.value.files == KeptPaths(includes.GetOr([]), DefaultExcludes + excludes.GetOr([]), Candidates(basedir, sep, walk))
  {
    var inc := includes.GetOr([]);
    var exc := DefaultExcludes + excludes.GetOr([]);
    match Collect(inc, exc, Candidates(basedir, sep, walk))
    case Err(m) => Err(m)
    case Ok(files) => Ok(FileSet(basedir, inc, exc, files))
  }

  /** `__contains__`: membership in the collected list. */
  predicate Contains(fs: FileSet, filename: string): (r: bool)
    ensures r <==> exists i :: 0 <= i < |fs.files| && fs.files[i] == filename
  {
    filename in fs.files
  }

  /** `__iter__`: the file names in the order they were collected; it yields exactly the names `in` accepts. */
  function Iterate(fs: FileSet): (r: seq<string>)
    ensures |r| == |fs.files|
    ensures forall f :: f in r <==> Contains(fs, f)
  {
    fs.files
  }

  /** A path is collected iff some walked file with that path passes the filter. */
  lemma {:induction false} KeptPathsMembership(includes: seq<string>, excludes: seq<string>, cs: seq<Candidate>, f: string)
    ensures f in KeptPaths(includes, excludes, cs) <==>
      exists i :: 0 <= i < |cs| && cs[i].filepath == f && Kept(includes, excludes, cs[i])
    decreases |cs|
  {
    if cs != [] {
      KeptPathsMembership(includes, excludes, cs[1..], f);
      if exists i :: 0 <= i < |cs| - 1 && cs[1..][i].filepath == f && Kept(includes, excludes, cs[1..][i]) {
        var i :| 0 <= i < |cs| - 1 && cs[1..][i].filepath == f && Kept(includes, excludes, cs[1..][i]);
        assert cs[i + 1] == cs[1..][i];
      }
      if exists i :: 0 <= i < |cs| && cs[i].filepath == f && Kept(includes, excludes, cs[i]) {
        var i :| 0 <= i < |cs| && cs[i].filepath == f && Kept(includes, excludes, cs[i]);
        if i > 0 {
          assert cs[1..][i - 1] == cs[i];
        }
      }
    }
  }

  /** The collected list is the kept walked files, in walk order, and nothing else. */
  lemma {:induction false} KeptPathsInOrder(includes: seq<string>, excludes: seq<string>, cs: seq<Candidate>)
    ensures |KeptPaths(includes, excludes, cs)| <= |cs|
    ensures (forall i :: 0 <= i < |cs| ==> Kept(includes, excludes, cs[i])) ==>
      KeptPaths(includes, excludes, cs) == seq(|cs|, i requires 0 <= i < |cs| => cs[i].filepath)
    ensures (forall i :: 0 <= i < |cs| ==> !Kept(includes, excludes, cs[i])) ==> KeptPaths(includes, excludes, cs) == []
    decreases |cs|
  {
    if cs != [] {
      assert forall i :: 0 <= i < |cs| - 1 ==> cs[1..][i] == cs[i + 1];
      KeptPathsInOrder(includes, excludes, cs[1..]);
    }
  }

  /** Some walked file with path `f` passes the filter. */
  ghost predicate KeptSomewhere(includes: seq<string>, excludes: seq<string>, cs: seq<Candidate>, f: string) {
    exists i :: 0 <= i < |cs| && cs[i].filepath == f && Kept(includes, excludes, cs[i])
  }

  /** Iterating a constructed file set yields the kept walked paths in walk order, never more than the walk lists. */
  lemma IterateOfNewFileSet(basedir: string, sep: char, includes: Option<seq<string>>, excludes: Option<seq<string>>,
                            walk: seq<WalkEntry>, fs: FileSet)
    requires NewFileSet(basedir, sep, includes, excludes, walk) == Ok(fs)
    ensures Iterate(fs) == KeptPaths(fs.includes, fs.excludes, Candidates(basedir, sep, walk))
    ensures |Iterate(fs)| <= |Candidates(basedir, sep, walk)|
  {
    KeptPathsInOrder(fs.includes, fs.excludes, Candidates(basedir, sep, walk));
  }

  /** `f in fileset` holds iff a walked file with path `f` passes the filter. */
  lemma ContainsIffKept(basedir: string, sep: char, includes: Option<seq<string>>, excludes: Option<seq<string>>,
                        walk: seq<WalkEntry>, fs: FileSet, f: string)
    requires NewFileSet(basedir, sep, includes, excludes, walk) == Ok(fs)
    ensures Contains(fs, f) <==> KeptSomewhere(fs.includes, fs.excludes, Candidates(basedir, sep, walk), f)
  {
    var cs := Candidates(basedir, sep, walk);
    assert fs.files == KeptPaths(fs.includes, fs.excludes, cs);
    KeptPathsMembership(fs.includes, fs.excludes, cs, f);
  }

  /** An excludes pattern that hits a file removes it, whatever the includes patterns say. */
  lemma ExcludeWins(includes: seq<string>, excludes: seq<string>, c: Candidate, p: string)
    requires p in excludes && Hits(p, c)
    ensures !Kept(includes, excludes, c)
    ensures Decide(includes, excludes, c) != Ok(true)
  {
    var i :| 0 <= i < |excludes| && excludes[i] == p;
  }

  /** Every default pattern compiles, so a file set with valid user patterns is always built. */
  lemma DefaultExcludesValid()
    ensures AllValid(DefaultExcludes)
  {
    forall i | 0 <= i < |DefaultExcludes|
      ensures Valid(DefaultExcludes[i])
    {
      var p := DefaultExcludes[i];
      if p == ".DS_Store" || p == "Thumbs.db" {
        PlainPatternMatchesItself(p, p);
      } else if p == "CVS/*" || p == ".svn/*" {
        PrefixPattern(p[..|p| - 1], []);
        assert p[..|p| - 1] + "*" == p;
      } else {
        var mid := if p == "*/CVS/*" then "/CVS/" else "/.svn/";
        assert IsPlain(mid);
        InfixPattern(mid, [], []);
        assert "*" + mid + "*" == p;
      }
    }
  }

  lemma ValidAppend(a: seq<string>, b: seq<string>)
    requires AllValid(a) && AllValid(b)
    ensures AllValid(a + b)
  {
    assert forall i :: |a| <= i < |a + b| ==> (a + b)[i] == b[i - |a|];
  }

  /** With compiling user patterns, constructing the file set never raises. */
  lemma NewFileSetSucceeds(basedir: string, sep: char, includes: Option<seq<string>>, excludes: Option<seq<string>>,
                           walk: seq<WalkEntry>)
    requires AllValid(includes.GetOr([])) && AllValid(excludes.GetOr([]))
    ensures NewFileSet(basedir, sep, includes, excludes, walk).Ok?
  {
    DefaultExcludesValid();
    ValidAppend(DefaultExcludes, excludes.GetOr([]));
  }

  /** A pattern among the defaults hits the file, so no file set keeps it. */
  lemma DefaultHitExcludes(includes: seq<string>, extra: seq<string>, c: Candidate, k: nat)
    requires k < |DefaultExcludes| && Hits(DefaultExcludes[k], c)
    ensures !Kept(includes, DefaultExcludes + extra, c)
  {
    assert (DefaultExcludes + extra)[k] == DefaultExcludes[k];
  }

  /** `.DS_Store` and `Thumbs.db` are never kept, in any directory. */
  lemma DesktopFilesExcluded(includes: seq<string>, extra: seq<string>, c: Candidate)
    requires c.filename == ".DS_Store" || c.filename == "Thumbs.db"
    ensures !Kept(includes, DefaultExcludes + extra, c)
  {
    var k := if c.filename == ".DS_Store" then 4 else 5;
    assert DefaultExcludes[k] == c.filename;
    assert Hits(DefaultExcludes[k], c) by {
      PlainPatternMatchesItself(c.filename, c.filename);
    }
    DefaultHitExcludes(includes, extra, c, k);
  }

  /**
    Nothing below a directory named `dir` (`CVS` or `.svn`) is kept, at any
    depth: the normalised path is `prefix + dir + "/" + rest` with `prefix`
    empty or ending in `/`.
   */
  lemma VersionControlExcluded(includes: seq<string>, extra: seq<string>, c: Candidate,
                               dir: string, prefix: string, rest: string)
    requires dir == "CVS" || dir == ".svn"
    requires prefix == [] || prefix[|prefix| - 1] == '/'
    requires c.nfilepath == prefix + dir + "/" + rest
    ensures !Kept(includes, DefaultExcludes + extra, c)
  {
    var top := if dir == "CVS" then 0 else 2;
    assert DefaultExcludes[top] == dir + "/" + "*";
    assert DefaultExcludes[top + 1] == "*" + ("/" + dir + "/") + "*";
    if prefix == [] {
      PrefixPattern(dir + "/", c.nfilepath);
      assert c.nfilepath == (dir + "/") + rest;
      assert c.nfilepath[..|dir + "/"|] == dir + "/";
      DefaultHitExcludes(includes, extra, c, top);
    } else {
      var before := prefix[..|prefix| - 1];
      assert c.nfilepath == before + ("/" + dir + "/") + rest;
      InfixPattern("/" + dir + "/", before, rest);
      DefaultHitExcludes(includes, extra, c, top + 1);
    }
  }
}
