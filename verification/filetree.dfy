/**
 An abstract file system: the tree a submission archive unpacks to, or the tree after the
 generator has run. Paths are lists of names relative to the extraction directory; the
 entries are listed in the order the file system enumerates them (`iterdir`, `rglob`).
 */
module FileTree {
  import opened Wrappers
  import opened Strings

  type Path = seq<string>

  datatype Node = Dir | File(content: string)

  datatype Entry = Entry(path: Path, node: Node)

  type Tree = seq<Entry>

  /** The node at `p`, taken from the first entry with that path. */
  function Lookup(t: Tree, p: Path): (r: Option<Node>)
    ensures r.None? <==> forall i :: 0 <= i < |t| ==> t[i].path != p
    ensures r.Some? ==> exists i :: 0 <= i < |t| && t[i] == Entry(p, r.value)
  {
    if |t| == 0 then None
    else if t[0].path == p then Some(t[0].node)
    else Lookup(t[1..], p)
  }

  /** `p.exists()` */
  predicate Exists(t: Tree, p: Path) {
    Lookup(t, p).Some?
  }

  predicate IsDir(t: Tree, p: Path) {
    Lookup(t, p) == Some(Dir)
  }

  /** `p.stat().st_size == 0`: a regular file with no content (a directory never has size 0). */
  predicate IsEmptyFile(t: Tree, p: Path) {
    Lookup(t, p) == Some(File(""))
  }

  /** `p.read_text()` of a regular file. */
  function ReadText(t: Tree, p: Path): string {
    match Lookup(t, p)
    case Some(File(c)) => c
    case _ => ""
  }

  /** `p.name` */
  function Name(p: Path): string {
    if |p| == 0 then "" else p[|p| - 1]
  }

  /** `q` is a direct child of `p`. */
  predicate IsChildOf(q: Path, p: Path) {
    |q| == |p| + 1 && q[..|p|] == p
  }

  /** `q` lies strictly below `p`. */
  predicate IsBelow(q: Path, p: Path) {
    |q| > |p| && q[..|p|] == p
  }

  /** `p.iterdir()`: the entries directly inside `p`, in enumeration order. */
  function Children(t: Tree, p: Path): (r: seq<Entry>)
    ensures |r| <= |t|
    ensures forall i :: 0 <= i < |r| ==> r[i] in t && IsChildOf(r[i].path, p)
    ensures forall i :: 0 <= i < |t| && IsChildOf(t[i].path, p) ==> t[i] in r
  {
    if |t| == 0 then []
    else if IsChildOf(t[0].path, p) then [t[0]] + Children(t[1..], p)
    else Children(t[1..], p)
  }

  /** The names of the directories directly inside `p`, in enumeration order. */
  function ChildDirNames(t: Tree, p: Path): (r: seq<string>)
    ensures |r| <= |t|
    ensures forall i :: 0 <= i < |r| ==> Entry(p + [r[i]], Dir) in t
    ensures forall i :: 0 <= i < |t| && IsChildOf(t[i].path, p) && t[i].node == Dir ==> Name(t[i].path) in r
  {
    if |t| == 0 then []
    else if IsChildOf(t[0].path, p) && t[0].node == Dir then
      assert t[0].path == p + [Name(t[0].path)];
      [Name(t[0].path)] + ChildDirNames(t[1..], p)
    else ChildDirNames(t[1..], p)
  }

  /** `p.rglob(...)` before the name filter: the entries strictly below `p`, in order. */
  function Below(t: Tree, p: Path): (r: seq<Entry>)
    ensures |r| <= |t|
    ensures forall i :: 0 <= i < |r| ==> r[i] in t && IsBelow(r[i].path, p)
    ensures forall i :: 0 <= i < |t| && IsBelow(t[i].path, p) ==> t[i] in r
  {
    if |t| == 0 then []
    else if IsBelow(t[0].path, p) then [t[0]] + Below(t[1..], p)
    else Below(t[1..], p)
  }

  /** `str(p)`: the names joined by '/'. */
  function Show(p: Path): string {
    if |p| == 0 then "" else if |p| == 1 then p[0] else p[0] + "/" + Show(p[1..])
  }

  /** `root / rel` for a relative path written with '/' separators. */
  function At(root: Path, rel: string): Path {
    root + Split(rel, '/')
  }
}
