/** The part of pathlib and the filesystem the processors rely on: absolute
    paths, their string form, `mkdir(parents=True, exist_ok=True)`, and the
    scan that turns a directory listing into one "video file" string. */
module Paths {
  import opened Wrappers

  /** An absolute path, as the list of its components below the root `/`. */
  type Path = seq<string>

  /** The components joined by `/`, each preceded by one. */
  function Render(p: Path): (s: string)
    ensures |p| > 0 ==> |s| > 0 && s[0] == '/'
  {
    if |p| == 0 then "" else Render(p[..|p| - 1]) + "/" + p[|p| - 1]
  }

  /** `str(path)`: the root alone is `/`. */
  function ToStr(p: Path): (s: string)
    ensures |s| > 0 && s[0] == '/'
  {
    if |p| == 0 then "/" else Render(p)
  }

  /** `str(dir.joinpath(name))` is `str(dir)`, a slash and the name, below the root. */
  lemma ToStrChild(dir: Path, name: string)
    requires |dir| > 0
    ensures ToStr(dir + [name]) == ToStr(dir) + "/" + name
  {
  }

  /** Every non-empty prefix of a path: the directories `mkdir(parents=True)`
      makes sure of, the path itself included. */
  function Ancestry(p: Path): (a: set<Path>)
    ensures p in a <==> |p| > 0
    ensures forall q :: q in a ==> 0 < |q| <= |p| && q == p[..|q|]
    ensures forall i :: 1 <= i <= |p| ==> p[..i] in a
  {
    var a := set i | 1 <= i <= |p| :: p[..i];
    assert p[..|p|] == p;
    assert |p| > 0 ==> p[..|p|] in a;
    assert forall q :: q in a ==> 0 < |q| <= |p| && q == p[..|q|];
    a
  }

  /** A child's ancestry is its parent's and the child itself. */
  lemma AncestryChild(p: Path, c: string)
    ensures Ancestry(p + [c]) == Ancestry(p) + {p + [c]}
  {
    var child := p + [c];
    forall q | q in Ancestry(p)
      ensures q in Ancestry(child)
    {
      assert q == child[..|q|];
    }
    forall q | q in Ancestry(child) && q != child
      ensures q in Ancestry(p)
    {
      assert |q| <= |p|;
      assert q == p[..|q|];
    }
  }

  /** The filesystem as the model sees it: existing directories and files. */
  datatype FileSystem = FileSystem(dirs: set<Path>, files: set<Path>)

  /** Why `mkdir` raised: a path on the way is a file (FileExistsError or
      NotADirectoryError in Python). */
  datatype FsError = NotADirectory(path: Path)

  /** `path.mkdir(parents=True, exist_ok=True)`: succeeds unless one of the
      path's prefixes is a file, and then adds every prefix as a directory. */
  function MakeDirs(fs: FileSystem, p: Path): (r: Result<FileSystem, FsError>)
    ensures r.Ok? <==> Ancestry(p) !! fs.files
    ensures r.Ok? ==> r.value.dirs == fs.dirs + Ancestry(p) && r.value.files == fs.files
    ensures r.Ok? && |p| > 0 ==> p in r.value.dirs
  {
    if Ancestry(p) !! fs.files then Ok(FileSystem(fs.dirs + Ancestry(p), fs.files))
    else Err(NotADirectory(p))
  }

  /** Re-creating a directory that was just created changes nothing. */
  lemma MakeDirsIdempotent(fs: FileSystem, p: Path)
    requires MakeDirs(fs, p).Ok?
    ensures MakeDirs(MakeDirs(fs, p).value, p) == MakeDirs(fs, p)
  {
  }

  /** `"".join(str(f) for f in dir.iterdir() if f.is_file())`: the full paths of
      the listed files, concatenated with no separator. It is empty exactly
      when no file is listed. */
  function ConcatFilePaths(dir: Path, names: seq<string>): (s: string)
    ensures s == "" <==> |names| == 0
  {
    if |names| == 0 then "" else ConcatFilePaths(dir, names[..|names| - 1]) + ToStr(dir + [names[|names| - 1]])
  }

  /** Its length is the sum of the listed paths' lengths, so it grows with every file. */
  lemma {:induction false} ConcatFilePathsLength(dir: Path, names: seq<string>, k: nat)
    requires k < |names|
    ensures |ConcatFilePaths(dir, names)| >= |ToStr(dir + [names[k]])| + |names| - 1
  {
    var last := |names| - 1;
    assert ConcatFilePaths(dir, names) == ConcatFilePaths(dir, names[..last]) + ToStr(dir + [names[last]]);
    if k == last {
      if last > 0 {
        ConcatFilePathsAtLeast(dir, names[..last]);
      }
    } else {
      ConcatFilePathsLength(dir, names[..last], k);
      assert names[..last][k] == names[k];
    }
  }

  lemma {:induction false} ConcatFilePathsAtLeast(dir: Path, names: seq<string>)
    ensures |ConcatFilePaths(dir, names)| >= |names|
  {
    if |names| > 0 {
      ConcatFilePathsAtLeast(dir, names[..|names| - 1]);
    }
  }

  /** With exactly one file listed, the concatenation is that file's path. */
  lemma ConcatFilePathsSingle(dir: Path, name: string)
    ensures ConcatFilePaths(dir, [name]) == ToStr(dir + [name])
  {
  }

  /** With two or more files listed, the concatenation is strictly longer than
      each listed path, so it names none of the files it was built from. */
  lemma ConcatFilePathsSeveral(dir: Path, names: seq<string>, k: nat)
    requires |names| >= 2 && k < |names|
    ensures ConcatFilePaths(dir, names) != ToStr(dir + [names[k]])
  {
    ConcatFilePathsLength(dir, names, k);
  }
}
