/**
 * The Sandpack file explorer's folder tree (`organizeFiles` in
 * src/components/CustomFileExplorer.tsx).
 *
 * The flat list of file paths, in the order of `Object.keys(files)`, is
 * turned into a nested record: every path is split on "/", empty segments
 * are dropped, every segment but the last names a folder (created when
 * absent, reused otherwise) and the last one names a file leaf that keeps
 * the full original path.
 *
 * A JavaScript record keeps its keys in insertion order and assigning an
 * existing key replaces the value in place; a directory is therefore an
 * ordered list of entries, and `Put` replaces or appends.
 */
module FileTree {
  import opened Wrappers
  import opened Strings

  datatype Node = File(path: string) | Folder(children: seq<Entry>)
  datatype Entry = Entry(name: string, node: Node)

  /** Where `current[name]` lives in a directory, or -1 when it is absent. */
  function IndexOf(d: seq<Entry>, name: string): (k: int)
    ensures -1 <= k < |d|
    ensures k == -1 <==> forall i :: 0 <= i < |d| ==> d[i].name != name
    ensures 0 <= k ==> d[k].name == name && forall i :: 0 <= i < k ==> d[i].name != name
  {
    if |d| == 0 then -1
    else if d[0].name == name then 0
    else
      var k := IndexOf(d[1..], name);
      if k < 0 then -1 else k + 1
  }

  /** `current[name] = node`: an existing key keeps its place, a new key goes last. */
  function Put(d: seq<Entry>, name: string, node: Node): (r: seq<Entry>)
    ensures |r| == |d| || |r| == |d| + 1
    ensures forall i :: 0 <= i < |d| ==> r[i].name == d[i].name
    ensures forall i :: 0 <= i < |d| && d[i].name != name ==> r[i] == d[i]
    ensures |r| == |d| + 1 <==> IndexOf(d, name) == -1
    ensures |r| == |d| + 1 ==> r[|d|] == Entry(name, node)
    ensures 0 <= IndexOf(r, name) && r[IndexOf(r, name)] == Entry(name, node)
    ensures forall x :: x != name ==> IndexOf(r, x) == IndexOf(d, x)
  {
    var k := IndexOf(d, name);
    var r := if 0 <= k then d[k := Entry(name, node)] else d + [Entry(name, node)];
    PutKeepsOtherIndices(d, r, name);
    r
  }

  /** Two directories whose names agree up to the shorter one locate other names alike. */
  lemma PutKeepsOtherIndices(d: seq<Entry>, r: seq<Entry>, name: string)
    requires |r| == |d| || (|r| == |d| + 1 && r[|d|].name == name)
    requires forall i :: 0 <= i < |d| ==> r[i].name == d[i].name
    ensures forall x :: x != name ==> IndexOf(r, x) == IndexOf(d, x)
  {
    forall x | x != name
      ensures IndexOf(r, x) == IndexOf(d, x)
    {
      SameNamesSameIndex(d, r, x);
    }
  }

  lemma {:induction false} SameNamesSameIndex(d: seq<Entry>, r: seq<Entry>, x: string)
    requires |r| == |d| || (|r| == |d| + 1 && r[|d|].name != x)
    requires forall i :: 0 <= i < |d| ==> r[i].name == d[i].name
    ensures IndexOf(r, x) == IndexOf(d, x)
    decreases |d|
  {
    if |d| > 0 && d[0].name != x {
      SameNamesSameIndex(d[1..], r[1..], x);
    }
  }

  /** The node found by following the names `p` from directory `d`. */
  function Find(d: seq<Entry>, p: seq<string>): Option<Node>
    decreases |p|
  {
    if |p| == 0 then None
    else
      var k := IndexOf(d, p[0]);
      if k < 0 then None
      else if |p| == 1 then Some(d[k].node)
      else match d[k].node
        case File(_) => None
        case Folder(c) => Find(c, p[1..])
  }

  /**
   * One step of the `forEach` over a path's segments.  `None` when the walk
   * has to descend through an existing file: JavaScript then reads
   * `.children` of a file node, gets `undefined`, and the next step throws a
   * TypeError, so the tree is never built.
   */
  function Insert(d: seq<Entry>, parts: seq<string>, path: string): Option<seq<Entry>>
    decreases |parts|
  {
    if |parts| == 0 then Some(d)
    else if |parts| == 1 then Some(Put(d, parts[0], File(path)))
    else
      var k := IndexOf(d, parts[0]);
      if 0 <= k && d[k].node.File? then None
      else
        var below := if k < 0 then [] else d[k].node.children;
        match Insert(below, parts[1..], path)
        case None => None
        case Some(c) => Some(Put(d, parts[0], Folder(c)))
  }

  /** The structure built from the paths, in order; `None` when building throws. */
  function Organize(paths: seq<string>): Option<seq<Entry>>
    decreases |paths|
  {
    if |paths| == 0 then Some([])
    else
      var last := paths[|paths| - 1];
      match Organize(paths[..|paths| - 1])
      case None => None
      case Some(t) => Insert(t, Segments(last), last)
  }

  /** `organizeFiles`: the loop over `Object.keys(files)`. */
  method OrganizeFiles(paths: seq<string>) returns (structure: Option<seq<Entry>>)
    ensures structure == Organize(paths)
  {
    structure := Some([]);
    var i := 0;
    while i < |paths|
      invariant 0 <= i <= |paths|
      invariant structure == Organize(paths[..i])
    {
      assert paths[..i + 1][..i] == paths[..i];
      if structure.None? {
        // building already threw; nothing after it runs
      } else {
        structure := Insert(structure.value, Segments(paths[i]), paths[i]);
      }
      i := i + 1;
    }
    assert paths[..|paths|] == paths;
  }

  // ---------------------------------------------------------------------
  // Where a path ends up

  /** The last segment becomes a file leaf recording the whole original path. */
  lemma {:induction false} InsertPlacesFile(d: seq<Entry>, parts: seq<string>, path: string)
    requires |parts| >= 1
    requires Insert(d, parts, path).Some?
    ensures Find(Insert(d, parts, path).value, parts) == Some(File(path))
    decreases |parts|
  {
    if |parts| > 1 {
      var k := IndexOf(d, parts[0]);
      var below := if k < 0 then [] else d[k].node.children;
      InsertPlacesFile(below, parts[1..], path);
    }
  }

  /**
   * Inserting a path changes nothing at another position unless the new
   * path is a prefix of it: a file stays the same file and a folder stays a
   * folder (a folder is reused, never re-created).
   */
  lemma {:induction false} InsertKeepsOthers(d: seq<Entry>, p: seq<string>, q: seq<string>, path: string)
    requires Find(d, p).Some?
    requires Insert(d, q, path).Some?
    requires !(q <= p)
    ensures var r := Insert(d, q, path).value;
      && Find(r, p).Some?
      && (Find(d, p).value.File? ==> Find(r, p) == Find(d, p))
      && (Find(d, p).value.Folder? ==> Find(r, p).value.Folder?)
    decreases |p|
  {
    var r := Insert(d, q, path).value;
    var k := IndexOf(d, p[0]);
    if q[0] != p[0] {
      assert IndexOf(r, p[0]) == k && r[k] == d[k];
    } else {
      assert |q| > 1;
      assert d[k].node.Folder?;
      var c := d[k].node.children;
      var c' := Insert(c, q[1..], path).value;
      assert r == Put(d, p[0], Folder(c'));
      if |p| > 1 {
        assert !(q[1..] <= p[1..]);
        InsertKeepsOthers(c, p[1..], q[1..], path);
      }
    }
  }

  /**
   * Every file path shows up in the tree as a file leaf at the position of
   * its segments, holding the original path, unless a later path lands on
   * the same position or on one of its ancestors.  In particular "/src/App.js"
   * and "src/App.js" have the same position (`SegmentsIgnoreLeadingSlash`).
   */
  lemma {:induction false} OrganizePlacesEveryFile(paths: seq<string>, i: int)
    requires Organize(paths).Some?
    requires 0 <= i < |paths|
    requires Segments(paths[i]) != []
    requires forall j :: i < j < |paths| ==> !(Segments(paths[j]) <= Segments(paths[i]))
    ensures Find(Organize(paths).value, Segments(paths[i])) == Some(File(paths[i]))
    decreases |paths|
  {
    var n := |paths| - 1;
    var front := paths[..n];
    var t := Organize(front).value;
    if i == n {
      InsertPlacesFile(t, Segments(paths[n]), paths[n]);
    } else {
      assert front[i] == paths[i];
      assert forall j :: i < j < |front| ==> front[j] == paths[j];
      OrganizePlacesEveryFile(front, i);
      InsertKeepsOthers(t, Segments(paths[i]), Segments(paths[n]), paths[n]);
    }
  }

  /** A file whose path continues below an existing file makes the build throw. */
  lemma FileThenNestedFileThrows()
    ensures Organize(["/a", "/a/b"]) == None
  {
    SegmentsIgnoreLeadingSlash("a");
    SplitWithoutSeparator("a", '/');
    SegmentsIgnoreLeadingSlash("a/b");
    SplitAround("a", "b", '/');
    SplitWithoutSeparator("b", '/');
    assert Segments("/a") == ["a"];
    assert Segments("/a/b") == ["a", "b"];
    var paths := ["/a", "/a/b"];
    assert paths[..1] == ["/a"] && paths[..1][..0] == [];
    assert Organize([]) == Some([]);
    assert IndexOf([], "a") == -1;
    assert Put([], "a", File("/a")) == [Entry("a", File("/a"))];
    assert Insert([], ["a"], "/a") == Some([Entry("a", File("/a"))]);
    assert Organize(paths[..1]) == Some([Entry("a", File("/a"))]);
  }

  // ---------------------------------------------------------------------
  // Shape: names are segments and are unique within a folder

  predicate WellFormed(d: seq<Entry>)
    decreases d
  {
    && (forall i, j :: 0 <= i < j < |d| ==> d[i].name != d[j].name)
    && (forall i :: 0 <= i < |d| ==> IsName(d[i].name, '/'))
    && (forall i :: 0 <= i < |d| ==> d[i].node.Folder? ==> WellFormed(d[i].node.children))
  }

  lemma PutWellFormed(d: seq<Entry>, name: string, node: Node)
    requires WellFormed(d) && IsName(name, '/')
    requires node.Folder? ==> WellFormed(node.children)
    ensures WellFormed(Put(d, name, node))
  {
    var r := Put(d, name, node);
    forall i | 0 <= i < |r| && r[i].node.Folder?
      ensures WellFormed(r[i].node.children)
    {
      if i < |d| && d[i].name != name {
        assert r[i] == d[i];
      }
    }
  }

  /** Inserting the segments of a path keeps every folder's names distinct. */
  lemma {:induction false} InsertWellFormed(d: seq<Entry>, parts: seq<string>, path: string)
    requires WellFormed(d)
    requires forall i :: 0 <= i < |parts| ==> IsName(parts[i], '/')
    requires Insert(d, parts, path).Some?
    ensures WellFormed(Insert(d, parts, path).value)
    decreases |parts|
  {
    if |parts| == 1 {
      PutWellFormed(d, parts[0], File(path));
    } else if |parts| > 1 {
      var k := IndexOf(d, parts[0]);
      var below := if k < 0 then [] else d[k].node.children;
      InsertWellFormed(below, parts[1..], path);
      PutWellFormed(d, parts[0], Folder(Insert(below, parts[1..], path).value));
    }
  }

  lemma {:induction false} OrganizeWellFormed(paths: seq<string>)
    requires Organize(paths).Some?
    ensures WellFormed(Organize(paths).value)
    decreases |paths|
  {
    if |paths| > 0 {
      var last := paths[|paths| - 1];
      OrganizeWellFormed(paths[..|paths| - 1]);
      InsertWellFormed(Organize(paths[..|paths| - 1]).value, Segments(last), last);
    }
  }
}
