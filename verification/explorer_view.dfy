/**
 * What the explorer shows (`renderFileTree` in
 * src/components/CustomFileExplorer.tsx): at every level of the tree the
 * folders come first and then the files, each group ordered by name with
 * `localeCompare`; an expanded folder is followed by the rows of its
 * children, one level deeper.
 *
 * `localeCompare` is locale data the model cannot see; it is a parameter
 * `le`, where `le(a, b)` means `a.localeCompare(b) <= 0`, about which only
 * `TotalPreorder` is assumed.  `Array.prototype.sort` is stable, which the
 * insertion sort below is as well.
 */
module ExplorerView {
  import opened Wrappers
  import opened Strings
  import opened FileTree
  import opened FolderList

  /** `localeCompare` orders any two names, and consistently. */
  ghost predicate TotalPreorder(le: (string, string) -> bool)
  {
    && (forall a, b :: le(a, b) || le(b, a))
    && (forall a, b, c :: le(a, b) && le(b, c) ==> le(a, c))
  }

  predicate SortedByName(s: seq<Entry>, le: (string, string) -> bool)
  {
    forall i, j :: 0 <= i < j < |s| ==> le(s[i].name, s[j].name)
  }

  /** Puts `e` before the first entry it does not follow. */
  function InsertByName(e: Entry, s: seq<Entry>, le: (string, string) -> bool): (r: seq<Entry>)
    ensures multiset(r) == multiset(s) + multiset{e}
  {
    if s == [] then [e]
    else if le(e.name, s[0].name) then [e] + s
    else
      assert s == [s[0]] + s[1..];
      [s[0]] + InsertByName(e, s[1..], le)
  }

  /** `entries.sort(([a], [b]) => a.localeCompare(b))`. */
  function SortByName(s: seq<Entry>, le: (string, string) -> bool): (r: seq<Entry>)
    ensures multiset(r) == multiset(s)
  {
    if s == [] then []
    else
      assert s == [s[0]] + s[1..];
      InsertByName(s[0], SortByName(s[1..], le), le)
  }

  /** `entries.filter(([, item]) => item.type === "folder")`. */
  function Folders(d: seq<Entry>): (r: seq<Entry>)
    ensures forall i :: 0 <= i < |r| ==> r[i].node.Folder?
  {
    if d == [] then []
    else (if d[0].node.Folder? then [d[0]] else []) + Folders(d[1..])
  }

  /** `entries.filter(([, item]) => item.type === "file")`. */
  function Files(d: seq<Entry>): (r: seq<Entry>)
    ensures forall i :: 0 <= i < |r| ==> r[i].node.File?
  {
    if d == [] then []
    else (if d[0].node.File? then [d[0]] else []) + Files(d[1..])
  }

  /** `sortedEntries`: the sorted folders, then the sorted files. */
  function SortedLevel(d: seq<Entry>, le: (string, string) -> bool): (r: seq<Entry>)
    ensures multiset(r) == multiset(d)
  {
    FoldersAndFiles(d);
    SortByName(Folders(d), le) + SortByName(Files(d), le)
  }

  lemma {:induction false} FoldersAndFiles(d: seq<Entry>)
    ensures multiset(Folders(d)) + multiset(Files(d)) == multiset(d)
  {
    if d != [] {
      FoldersAndFiles(d[1..]);
      assert d == [d[0]] + d[1..];
    }
  }

  // ---------------------------------------------------------------------
  // The order of one level

  lemma {:induction false} InsertByNameSorted(e: Entry, s: seq<Entry>, le: (string, string) -> bool)
    requires TotalPreorder(le)
    requires SortedByName(s, le)
    ensures SortedByName(InsertByName(e, s, le), le)
  {
    if s != [] && !le(e.name, s[0].name) {
      InsertByNameSorted(e, s[1..], le);
      var r := InsertByName(e, s, le);
      var t := InsertByName(e, s[1..], le);
      assert r == [s[0]] + t;
      forall j | 0 < j < |r| ensures le(s[0].name, r[j].name) {
        assert r[j] in multiset(t);
        assert r[j] in multiset(s[1..]) + multiset{e};
        if r[j] != e {
          var m :| 0 <= m < |s[1..]| && s[1..][m] == r[j];
          assert s[m + 1] == r[j];
        }
      }
    }
  }

  lemma {:induction false} SortByNameSorted(s: seq<Entry>, le: (string, string) -> bool)
    requires TotalPreorder(le)
    ensures SortedByName(SortByName(s, le), le)
  {
    if s != [] {
      SortByNameSorted(s[1..], le);
      InsertByNameSorted(s[0], SortByName(s[1..], le), le);
    }
  }

  /**
   * One level of the explorer: every folder row comes before every file
   * row, each group is ordered by name, and nothing is lost or repeated.
   */
  lemma LevelOrder(d: seq<Entry>, le: (string, string) -> bool)
    requires TotalPreorder(le)
    ensures var r := SortedLevel(d, le);
      var n := |Folders(d)|;
      && multiset(r) == multiset(d)
      && n <= |r|
      && (forall i :: 0 <= i < |r| ==> (r[i].node.Folder? <==> i < n))
      && SortedByName(r[..n], le)
      && SortedByName(r[n..], le)
  {
    var fo := SortByName(Folders(d), le);
    var fi := SortByName(Files(d), le);
    var r := SortedLevel(d, le);
    assert r == fo + fi;
    assert |fo| == |Folders(d)| by {
      assert |multiset(fo)| == |multiset(Folders(d))|;
    }
    SortByNameSorted(Folders(d), le);
    SortByNameSorted(Files(d), le);
    assert r[..|fo|] == fo && r[|fo|..] == fi;
    forall i | 0 <= i < |r| ensures r[i].node.Folder? <==> i < |fo| {
      if i < |fo| {
        assert r[i] == fo[i] && fo[i] in multiset(Folders(d));
        var m :| 0 <= m < |Folders(d)| && Folders(d)[m] == fo[i];
      } else {
        assert r[i] == fi[i - |fo|] && fi[i - |fo|] in multiset(Files(d));
        var m :| 0 <= m < |Files(d)| && Files(d)[m] == fi[i - |fo|];
      }
    }
  }

  // ---------------------------------------------------------------------
  // Rows

  datatype Row =
    | FolderRow(name: string, folderPath: string, level: nat, isExpanded: bool)
    | FileRow(name: string, filePath: string, level: nat, isActive: bool)

  /** `renderFileTree(structure, level, parentPath)`. */
  function Render(d: seq<Entry>, level: nat, parent: string, expanded: set<string>,
                  active: string, le: (string, string) -> bool): seq<Row>
    decreases d, |d| + 1
  {
    var s := SortedLevel(d, le);
    assert forall k :: 0 <= k < |s| ==> s[k] in multiset(d);
    RenderFrom(s, 0, d, level, parent, expanded, active, le)
  }

  /** The rows of the sorted entries `s[i..]` of directory `d`. */
  function RenderFrom(s: seq<Entry>, i: nat, d: seq<Entry>, level: nat, parent: string,
                      expanded: set<string>, active: string, le: (string, string) -> bool): seq<Row>
    requires |s| == |d| && forall k :: 0 <= k < |s| ==> s[k] in d
    decreases d, |s| - i
  {
    if i >= |s| then []
    else
      var e := s[i];
      var rest := RenderFrom(s, i + 1, d, level, parent, expanded, active, le);
      match e.node
      case File(path) =>
        (if path != "" then [FileRow(e.name, path, level, path == active)] else []) + rest
      case Folder(c) =>
        var folderPath := ChildPath(parent, e.name);
        var isExpanded := folderPath in expanded;
        [FolderRow(e.name, folderPath, level, isExpanded)]
        + (if isExpanded then Render(c, level + 1, folderPath, expanded, active, le) else [])
        + rest
  }

  // ---------------------------------------------------------------------
  // Rendered folder paths are the listed folder paths

  lemma {:induction false} EntryPathsIncluded(d: seq<Entry>, k: int, parent: string)
    requires 0 <= k < |d|
    ensures forall x :: x in EntryFolderPaths(d[k], parent) ==> x in FolderPaths(d, parent)
    decreases |d|
  {
    if k < |d| - 1 {
      EntryPathsIncluded(d[..|d| - 1], k, parent);
      assert d[..|d| - 1][k] == d[k];
    }
  }

  /**
   * Every folder row carries a path that the folder listing of the same
   * directory holds, so the lookup key used when rendering and the keys put
   * in the expanded set have the same form; the row is open exactly when
   * that key is in the expanded set.
   */
  lemma {:induction false} RenderedFoldersListed(d: seq<Entry>, level: nat, parent: string,
                      expanded: set<string>, active: string, le: (string, string) -> bool)
    ensures forall r :: r in Render(d, level, parent, expanded, active, le) && r.FolderRow? ==>
      r.folderPath in FolderPaths(d, parent) && (r.isExpanded <==> r.folderPath in expanded)
    decreases d, |d| + 1
  {
    var s := SortedLevel(d, le);
    assert forall k :: 0 <= k < |s| ==> s[k] in multiset(d);
    RenderedFromListed(s, 0, d, level, parent, expanded, active, le);
  }

  lemma {:induction false} RenderedFromListed(s: seq<Entry>, i: nat, d: seq<Entry>, level: nat, parent: string,
                      expanded: set<string>, active: string, le: (string, string) -> bool)
    requires |s| == |d| && forall k :: 0 <= k < |s| ==> s[k] in d
    ensures forall r :: r in RenderFrom(s, i, d, level, parent, expanded, active, le) && r.FolderRow? ==>
      r.folderPath in FolderPaths(d, parent) && (r.isExpanded <==> r.folderPath in expanded)
    decreases d, |s| - i
  {
    if i < |s| {
      var e := s[i];
      RenderedFromListed(s, i + 1, d, level, parent, expanded, active, le);
      if e.node.Folder? {
        var k :| 0 <= k < |d| && d[k] == e;
        EntryPathsIncluded(d, k, parent);
        var folderPath := ChildPath(parent, e.name);
        if folderPath in expanded {
          RenderedFoldersListed(e.node.children, level + 1, folderPath, expanded, active, le);
        }
      }
    }
  }
}
