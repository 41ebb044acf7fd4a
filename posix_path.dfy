/**
 * The POSIX `os.path` functions the segment handler relies on: `join`,
 * `normpath` and `abspath` (Python's `posixpath`), on paths as strings. The
 * current working directory is a parameter.
 */
module PosixPath {
  import opened Text

  /** `os.path.join(a, b)`: an absolute `b` replaces `a`; otherwise one "/" separates them. */
  function PathJoin(a: string, b: string): string {
    if StartsWith(b, "/") then b
    else if a == "" || EndsWith(a, "/") then a + b
    else a + "/" + b
  }

  /** How many leading slashes `normpath` keeps: POSIX gives exactly two of them a meaning of their own. */
  function LeadingSlashes(p: string): nat {
    if StartsWith(p, "/") && StartsWith(p, "//") && !StartsWith(p, "///") then 2
    else if StartsWith(p, "/") then 1
    else 0
  }

  /**
   * The component loop of `normpath`: empty and "." components vanish, ".."
   * cancels the previous component, and is kept when there is nothing to
   * cancel (only in a relative path) or when the previous one is "..".
   */
  function Collapse(comps: seq<string>, rooted: bool): (r: seq<string>)
    ensures forall k :: 0 <= k < |r| ==> r[k] != "" && r[k] != "."
  {
    if comps == [] then []
    else
      var acc := Collapse(comps[..|comps| - 1], rooted);
      var c := comps[|comps| - 1];
      if c == "" || c == "." then acc
      else if c != ".." || (!rooted && acc == []) || (acc != [] && acc[|acc| - 1] == "..") then acc + [c]
      else if acc != [] then acc[..|acc| - 1]
      else acc
  }

  function Slashes(n: nat): string {
    if n == 0 then "" else "/" + Slashes(n - 1)
  }

  /** `os.path.normpath(p)`. */
  function NormPath(p: string): string {
    if p == "" then "."
    else
      var lead := LeadingSlashes(p);
      var path := Slashes(lead) + JoinWith(Collapse(Split(p, '/'), lead > 0), '/');
      if path == "" then "." else path
  }

  /** `os.path.abspath(p)` with `cwd` standing for `os.getcwd()`. */
  function AbsPath(cwd: string, p: string): string {
    if StartsWith(p, "/") then NormPath(p) else NormPath(PathJoin(cwd, p))
  }

  /** A single path component that `normpath` keeps as it is. */
  predicate PlainComponent(c: string) {
    c != "" && c != "." && c != ".." && '/' !in c
  }

  /** Appending a plain component to the component list appends it to the collapsed list. */
  lemma CollapseSnoc(comps: seq<string>, c: string, rooted: bool)
    requires PlainComponent(c)
    ensures Collapse(comps + [c], rooted) == Collapse(comps, rooted) + [c]
  {
    assert (comps + [c])[..|comps|] == comps;
  }

  lemma CollapseSplitSnoc(q: string, c: string, rooted: bool)
    requires PlainComponent(c)
    ensures Collapse(Split(q + "/" + c, '/'), rooted) == Collapse(Split(q, '/'), rooted) + [c]
  {
    SplitAround(q, '/', c);
    SplitWithoutSeparator(c, '/');
    CollapseSnoc(Split(q, '/'), c, rooted);
  }

  lemma LeadingSlashesOfExtension(q: string, tail: string)
    requires |q| >= 3
    ensures LeadingSlashes(q + tail) == LeadingSlashes(q)
  {
    assert (q + tail)[..1] == q[..1];
    assert (q + tail)[..2] == q[..2];
    assert (q + tail)[..3] == q[..3];
  }

  /**
   * Normalising commutes with appending a plain component, as long as the
   * prefix is long enough to fix the leading slashes and does not collapse
   * to the bare root.
   */
  lemma NormPathSnoc(q: string, c: string)
    requires |q| >= 3 && PlainComponent(c)
    requires Collapse(Split(q, '/'), LeadingSlashes(q) > 0) != []
    ensures NormPath(q + "/" + c) == NormPath(q) + "/" + c
  {
    var qc := q + "/" + c;
    LeadingSlashesOfExtension(q, "/" + c);
    assert qc == q + ("/" + c);
    CollapseSplitSnoc(q, c, LeadingSlashes(q) > 0);
    NormPathSnocStep(q, qc, c, LeadingSlashes(q), Collapse(Split(q, '/'), LeadingSlashes(q) > 0));
  }

  lemma NormPathSnocStep(q: string, qc: string, c: string, lead: nat, comps: seq<string>)
    requires q != "" && qc != "" && PlainComponent(c)
    requires LeadingSlashes(qc) == lead && LeadingSlashes(q) == lead
    requires Collapse(Split(q, '/'), lead > 0) == comps != []
    requires Collapse(Split(qc, '/'), lead > 0) == comps + [c]
    ensures NormPath(qc) == NormPath(q) + "/" + c
  {
    JoinWithSnoc(comps, '/', c);
    JoinWithNonEmpty(comps, '/');
    NormPathUnfold(q, lead, comps);
    NormPathUnfold(qc, lead, comps + [c]);
  }

  /** `normpath` of a non-empty path whose normal form is not empty, spelled out. */
  lemma NormPathUnfold(p: string, lead: nat, comps: seq<string>)
    requires p != "" && LeadingSlashes(p) == lead && Collapse(Split(p, '/'), lead > 0) == comps
    requires JoinWith(comps, '/') != ""
    ensures NormPath(p) == Slashes(lead) + JoinWith(comps, '/')
  {
  }

  lemma JoinWithNonEmpty(comps: seq<string>, sep: char)
    requires comps != [] && comps[|comps| - 1] != ""
    ensures JoinWith(comps, sep) != ""
  {
    if |comps| > 1 {
      JoinWithSnoc(comps[..|comps| - 1], sep, comps[|comps| - 1]);
      assert comps[..|comps| - 1] + [comps[|comps| - 1]] == comps;
    }
  }

  /** The directory every resource's playlist and segments live in (`os.path.join("media", "hls")`). */
  const MediaRoot: string := "media"
  const HlsRoot: string := "media/hls"

  lemma HlsRootParts()
    ensures PlainComponent(MediaRoot) && PlainComponent("hls") && MediaRoot[0] != '/'
    ensures HlsRoot == MediaRoot + "/" + "hls"
  {
  }

  lemma HlsRootNormal()
    ensures NormPath(HlsRoot) == HlsRoot
    ensures Collapse(Split(HlsRoot, '/'), false) == ["media", "hls"]
  {
    HlsRootParts();
    PairNormal(MediaRoot, "hls");
  }

  /** Two plain components joined by "/", the first not starting with "/", are already normal. */
  lemma PairNormal(a: string, b: string)
    requires PlainComponent(a) && PlainComponent(b) && a[0] != '/'
    ensures Collapse(Split(a + "/" + b, '/'), false) == [a, b]
    ensures NormPath(a + "/" + b) == a + "/" + b
  {
    var p := a + "/" + b;
    SplitTwo(a, '/', b);
    CollapsePair(a, b);
    assert p[..1] == a[..1];
    assert LeadingSlashes(p) == 0;
    JoinWithSnoc([a], '/', b);
    assert [a] + [b] == [a, b];
    NormPathUnfold(p, 0, [a, b]);
  }

  lemma CollapsePair(a: string, b: string)
    requires PlainComponent(a) && PlainComponent(b)
    ensures Collapse([a, b], false) == [a, b]
  {
    CollapseSnoc([], a, false);
    assert [] + [a] == [a];
    CollapseSnoc([a], b, false);
    assert [a] + [b] == [a, b];
  }

  /** What `join(cwd, p)` puts in front of a relative path. */
  function CwdPrefix(cwd: string): string {
    if cwd == "" || EndsWith(cwd, "/") then cwd else cwd + "/"
  }

  lemma JoinOntoCwd(cwd: string, p: string)
    requires p != [] && p[0] != '/'
    ensures PathJoin(cwd, p) == CwdPrefix(cwd) + p
  {
    assert !StartsWith(p, "/") by {
      assert p[..1] == [p[0]];
    }
  }

  /**
   * For a plain resource directory name and a plain file name, the
   * normalised absolute path of the file is the normalised absolute path
   * of the directory, a "/" and the name, whatever the working directory.
   */
  lemma ResourceFileResolves(cwd: string, dirName: string, name: string)
    requires PlainComponent(dirName) && PlainComponent(name)
    ensures AbsPath(cwd, NormPath(PathJoin(PathJoin(HlsRoot, dirName), name)))
         == AbsPath(cwd, PathJoin(HlsRoot, dirName)) + "/" + name
  {
    var dir := HlsRoot + "/" + dirName;
    var rel := dir + "/" + name;
    HlsJoin(dirName);
    JoinPlain(dir, name);
    ResourcePathsNormal(dirName, name);
    assert !StartsWith(rel, "/") && !StartsWith(dir, "/");
    UnderWorkingDirectory(cwd, dirName, name);
  }

  /** Relative to the working directory, a resource directory and a file in it are already normal. */
  lemma ResourcePathsNormal(dirName: string, name: string)
    requires PlainComponent(dirName) && PlainComponent(name)
    ensures NormPath(HlsRoot + "/" + dirName) == HlsRoot + "/" + dirName
    ensures NormPath(HlsRoot + "/" + dirName + "/" + name) == HlsRoot + "/" + dirName + "/" + name
  {
    ResourceDirNormal(dirName);
    var dir := HlsRoot + "/" + dirName;
    assert dir[..1] == "m";
    NormPathSnoc(dir, name);
  }

  lemma ResourceDirNormal(dirName: string)
    requires PlainComponent(dirName)
    ensures NormPath(HlsRoot + "/" + dirName) == HlsRoot + "/" + dirName
    ensures Collapse(Split(HlsRoot + "/" + dirName, '/'), false) != []
    ensures LeadingSlashes(HlsRoot + "/" + dirName) == 0
  {
    HlsRootNormal();
    CollapseSplitSnoc(HlsRoot, dirName, false);
    NormPathSnoc(HlsRoot, dirName);
    assert (HlsRoot + "/" + dirName)[..1] == "m";
  }

  /** Joining onto the working directory and normalising keeps a trailing plain file name. */
  lemma UnderWorkingDirectory(cwd: string, dirName: string, name: string)
    requires PlainComponent(dirName) && PlainComponent(name)
    ensures NormPath(PathJoin(cwd, HlsRoot + "/" + dirName + "/" + name))
         == NormPath(PathJoin(cwd, HlsRoot + "/" + dirName)) + "/" + name
  {
    var dir := HlsRoot + "/" + dirName;
    var pre := CwdPrefix(cwd);
    assert dir[0] == 'm' && (dir + "/" + name)[0] == 'm';
    JoinOntoCwd(cwd, dir);
    JoinOntoCwd(cwd, dir + "/" + name);
    assert pre + (dir + "/" + name) == (pre + dir) + "/" + name;
    assert pre + dir == (pre + HlsRoot) + "/" + dirName;
    CollapseSplitSnoc(pre + HlsRoot, dirName, LeadingSlashes(pre + dir) > 0);
    NormPathSnoc(pre + dir, name);
  }

  /** Against an absolute working directory, `abspath` yields an absolute path. */
  lemma AbsPathRooted(cwd: string, p: string)
    requires StartsWith(cwd, "/")
    ensures StartsWith(AbsPath(cwd, p), "/")
  {
    var q := if StartsWith(p, "/") then p else PathJoin(cwd, p);
    assert q[..1] == "/";
    var lead := LeadingSlashes(q);
    assert lead >= 1;
    var path := Slashes(lead) + JoinWith(Collapse(Split(q, '/'), lead > 0), '/');
    assert path[0] == '/';
  }

  /** A plain entry of the media directory resolves to the resolved media directory, a "/" and its name. */
  lemma HlsEntryResolves(cwd: string, c: string)
    requires PlainComponent(c)
    ensures AbsPath(cwd, PathJoin(HlsRoot, c)) == AbsPath(cwd, HlsRoot) + "/" + c
  {
    HlsJoin(c);
    var dir := HlsRoot + "/" + c;
    assert dir[..1] == "m" && HlsRoot[..1] == "m";
    HlsRootUnderWorkingDirectory(cwd, c);
  }

  lemma HlsJoin(c: string)
    requires PlainComponent(c)
    ensures PathJoin(HlsRoot, c) == HlsRoot + "/" + c
  {
    JoinPlain(HlsRoot, c);
  }

  /** Joining a plain component onto a path that does not end in "/" puts one "/" between them. */
  lemma JoinPlain(a: string, c: string)
    requires a != "" && a[|a| - 1] != '/' && PlainComponent(c)
    ensures PathJoin(a, c) == a + "/" + c
  {
    assert c[0] in c;
    assert a[|a| - 1..] == [a[|a| - 1]];
  }

  lemma HlsRootUnderWorkingDirectory(cwd: string, c: string)
    requires PlainComponent(c)
    ensures NormPath(PathJoin(cwd, HlsRoot + "/" + c)) == NormPath(PathJoin(cwd, HlsRoot)) + "/" + c
  {
    var pre := CwdPrefix(cwd);
    assert (HlsRoot + "/" + c)[0] == 'm' && HlsRoot[0] == 'm';
    JoinOntoCwd(cwd, HlsRoot + "/" + c);
    JoinOntoCwd(cwd, HlsRoot);
    assert pre + (HlsRoot + "/" + c) == (pre + HlsRoot) + "/" + c;
    HlsRootParts();
    assert pre + HlsRoot == (pre + MediaRoot) + "/" + "hls";
    CollapseSplitSnoc(pre + MediaRoot, "hls", LeadingSlashes(pre + HlsRoot) > 0);
    NormPathSnoc(pre + HlsRoot, c);
  }

  /** Two entries of one directory, one of them a level further down, are at different paths. */
  lemma NestedEntriesDiffer(root: string, a: string, b: string, c: string)
    requires '/' !in a
    ensures root + "/" + a != root + "/" + b + "/" + c
  {
    var x := root + "/" + a;
    var y := root + "/" + b + "/" + c;
    if |x| == |y| {
      var k := |root| + 1 + |b|;
      assert y[k] == '/';
      assert x[k] == a[|b|];
      assert a[|b|] in a;
    }
  }
}
