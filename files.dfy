/** The filesystem as the backend sees it: absolute paths as sequences of
    segments, and a map from path to entry. */
module Files {
  import opened Text

  /** An absolute path, one string per segment: /a/b is ["a", "b"]. */
  type Path = seq<string>

  /** str(path) for an absolute path. */
  function PathString(p: Path): string
  {
    if p == [] then "" else PathString(p[..|p| - 1]) + "/" + p[|p| - 1]
  }

  /** The last segment of a path (PurePath.name). */
  function Name(p: Path): string
    requires p != []
  {
    p[|p| - 1]
  }

  /** p is dir itself or lies somewhere below it. */
  predicate Under(p: Path, dir: Path) {
    |dir| <= |p| && p[..|dir|] == dir
  }

  /** p is a direct child of dir. */
  predicate ChildOf(p: Path, dir: Path) {
    |p| == |dir| + 1 && p[..|dir|] == dir
  }

  /** A regular file (with its text and modification time) or a directory.
      Special files and symbolic links are not modelled. */
  datatype Entry = RegularFile(content: string, mtime: real) | Directory

  type FileMap = map<Path, Entry>

  /** The direct children of dir that are in the filesystem (os.listdir). */
  function ChildPaths(fs: FileMap, dir: Path): (kids: set<Path>)
    ensures forall p :: p in kids <==> p in fs && ChildOf(p, dir)
  {
    set p | p in fs && ChildOf(p, dir)
  }

  /** What is left after removing dir and everything below it (shutil.rmtree). */
  function RemoveTree(fs: FileMap, dir: Path): (rest: FileMap)
    ensures forall p :: p in rest <==> p in fs && !Under(p, dir)
    ensures forall p :: p in rest ==> rest[p] == fs[p]
  {
    map p | p in fs && !Under(p, dir) :: fs[p]
  }

  /** The entries of dir whose names "*.mp4" matches (Path.glob). */
  function Mp4Files(fs: FileMap, dir: Path): (found: set<Path>)
    ensures forall p :: p in found <==> p in fs && ChildOf(p, dir) && GlobMp4(Name(p))
  {
    set p | p in fs && ChildOf(p, dir) && GlobMp4(Name(p))
  }

  /** A name of the shape tempfile hands out for a script: "tmp" and more. */
  predicate TempStem(stem: string) {
    |stem| >= 3 && stem[..3] == "tmp"
  }

  /** Longest last segment among some paths. */
  ghost function LongestName(paths: set<Path>): (n: nat)
    ensures forall p :: p in paths && p != [] ==> |Name(p)| <= n
    decreases |paths|
  {
    if paths == {} then 0
    else
      var q :| q in paths;
      var rest := LongestName(paths - {q});
      if q != [] && |Name(q)| > rest then |Name(q)| else rest
  }

  function Repeat(c: char, n: nat): (s: string)
    ensures |s| == n
  {
    if n == 0 then [] else [c] + Repeat(c, n - 1)
  }

  /** tempfile can always find a script name that is not taken yet: there are
      only finitely many paths in the filesystem. */
  lemma FreshScriptStem(paths: set<Path>, dir: Path) returns (stem: string)
    ensures TempStem(stem) && dir + [stem + ".py"] !in paths
  {
    var longest := LongestName(paths);
    stem := "tmp" + Repeat('a', longest);
    assert stem[..3] == "tmp";
    var p := dir + [stem + ".py"];
    assert Name(p) == stem + ".py";
    assert |Name(p)| > longest;
  }
}
