/**
 * The list of folder paths of the explorer's tree (`collectAllFolders` in
 * src/components/CustomFileExplorer.tsx): every folder, written as its names
 * joined by "/" with no leading slash, a folder before everything below it.
 *
 * `FolderSegs` is an independent description of the same list as lists of
 * names; the lemmas connect the two and prove what the listing promises.
 */
module FolderList {
  import opened Wrappers
  import opened Strings
  import opened FileTree

  /** The path of a child folder: `parentPath ? `${parentPath}/${name}` : name`. */
  function ChildPath(parent: string, name: string): (r: string)
    ensures parent == "" ==> r == name
    ensures parent != "" ==> r == parent + "/" + name
  {
    if parent == "" then name else parent + "/" + name
  }

  /** The folder paths of a directory, entry by entry, each folder followed by its own folders. */
  function FolderPaths(d: seq<Entry>, parent: string): seq<string>
    decreases d
  {
    if |d| == 0 then []
    else FolderPaths(d[..|d| - 1], parent) + EntryFolderPaths(d[|d| - 1], parent)
  }

  function EntryFolderPaths(e: Entry, parent: string): seq<string>
    decreases e
  {
    match e.node
    case File(_) => []
    case Folder(c) =>
      var folderPath := ChildPath(parent, e.name);
      [folderPath] + FolderPaths(c, folderPath)
  }

  /** `collectAllFolders`: pushes each folder, then the folders collected below it. */
  method CollectAllFolders(structure: seq<Entry>, parentPath: string) returns (folders: seq<string>)
    ensures folders == FolderPaths(structure, parentPath)
    decreases structure
  {
    folders := [];
    var i := 0;
    while i < |structure|
      invariant 0 <= i <= |structure|
      invariant folders == FolderPaths(structure[..i], parentPath)
    {
      var item := structure[i];
      assert structure[..i + 1][..i] == structure[..i];
      if item.node.Folder? {
        var folderPath := ChildPath(parentPath, item.name);
        folders := folders + [folderPath];
        var below := CollectAllFolders(item.node.children, folderPath);
        folders := folders + below;
      }
      i := i + 1;
    }
    assert structure[..|structure|] == structure;
  }

  // ---------------------------------------------------------------------
  // The same listing as lists of names

  function FolderSegs(d: seq<Entry>): seq<seq<string>>
    decreases d
  {
    if |d| == 0 then []
    else FolderSegs(d[..|d| - 1]) + EntryFolderSegs(d[|d| - 1])
  }

  function EntryFolderSegs(e: Entry): seq<seq<string>>
    decreases e
  {
    match e.node
    case File(_) => []
    case Folder(c) => [[e.name]] + Prefixed(e.name, FolderSegs(c))
  }

  function Prefixed(x: string, ss: seq<seq<string>>): (r: seq<seq<string>>)
    ensures |r| == |ss|
  {
    seq(|ss|, i requires 0 <= i < |ss| => [x] + ss[i])
  }

  function Under(p: seq<string>, ss: seq<seq<string>>): (r: seq<seq<string>>)
    ensures |r| == |ss|
  {
    seq(|ss|, i requires 0 <= i < |ss| => p + ss[i])
  }

  function JoinAll(ss: seq<seq<string>>): (r: seq<string>)
    ensures |r| == |ss|
  {
    seq(|ss|, i requires 0 <= i < |ss| => Join(ss[i], '/'))
  }

  /** A folder sits at the position `p` of the tree. */
  predicate FolderAt(d: seq<Entry>, p: seq<string>)
  {
    Find(d, p).Some? && Find(d, p).value.Folder?
  }

  predicate ValidSegs(s: seq<string>)
  {
    |s| >= 1 && forall j :: 0 <= j < |s| ==> IsName(s[j], '/')
  }

  predicate Distinct<T(==)>(s: seq<T>)
  {
    forall i, j :: 0 <= i < j < |s| ==> s[i] != s[j]
  }

  /** Every list of names has its parent list somewhere before it. */
  predicate ParentsFirst(ss: seq<seq<string>>)
  {
    forall k :: 0 <= k < |ss| && |ss[k]| > 1 ==>
      exists m :: 0 <= m < k && ss[m] == ss[k][..|ss[k]| - 1]
  }

  function Names(d: seq<Entry>): set<string>
  {
    set i | 0 <= i < |d| :: d[i].name
  }

  // ---------------------------------------------------------------------
  // Helper facts

  lemma WellFormedFront(d: seq<Entry>)
    requires WellFormed(d) && |d| > 0
    ensures WellFormed(d[..|d| - 1])
  {
    var f := d[..|d| - 1];
    assert forall i :: 0 <= i < |f| ==> f[i] == d[i];
  }

  lemma ChildPathOfJoin(p: seq<string>, name: string)
    requires forall j :: 0 <= j < |p| ==> IsName(p[j], '/')
    ensures ChildPath(Join(p, '/'), name) == Join(p + [name], '/')
  {
    if p == [] {
      assert p + [name] == [name];
    } else {
      JoinNonEmpty(p, '/');
      JoinSnoc(p, name, '/');
    }
  }

  lemma DistinctAppend<T>(a: seq<T>, b: seq<T>)
    requires Distinct(a) && Distinct(b)
    requires forall i, j :: 0 <= i < |a| && 0 <= j < |b| ==> a[i] != b[j]
    ensures Distinct(a + b)
  {
    var s := a + b;
    forall i, j | 0 <= i < j < |s| ensures s[i] != s[j] {
      if j < |a| {
        assert s[i] == a[i] && s[j] == a[j];
      } else if i < |a| {
        assert s[i] == a[i] && s[j] == b[j - |a|];
      } else {
        assert s[i] == b[i - |a|] && s[j] == b[j - |a|];
      }
    }
  }

  lemma ParentsFirstAppend(a: seq<seq<string>>, b: seq<seq<string>>)
    requires ParentsFirst(a) && ParentsFirst(b)
    ensures ParentsFirst(a + b)
  {
    var s := a + b;
    forall k | 0 <= k < |s| && |s[k]| > 1
      ensures exists m :: 0 <= m < k && s[m] == s[k][..|s[k]| - 1]
    {
      if k < |a| {
        assert s[k] == a[k];
        var m :| 0 <= m < k && a[m] == a[k][..|a[k]| - 1];
        assert s[m] == a[m];
      } else {
        assert s[k] == b[k - |a|];
        var m :| 0 <= m < k - |a| && b[m] == b[k - |a|][..|b[k - |a|]| - 1];
        assert s[m + |a|] == b[m];
      }
    }
  }

  // ---------------------------------------------------------------------
  // Shape of the listing

  /** Every listed folder is a non-empty list of names starting with a name of this directory. */
  lemma {:induction false} SegsShape(d: seq<Entry>)
    requires WellFormed(d)
    ensures forall k :: 0 <= k < |FolderSegs(d)| ==> ValidSegs(FolderSegs(d)[k]) && FolderSegs(d)[k][0] in Names(d)
    decreases d
  {
    if |d| > 0 {
      var f := d[..|d| - 1];
      var e := d[|d| - 1];
      WellFormedFront(d);
      SegsShape(f);
      EntrySegsShape(e);
      assert Names(f) <= Names(d) by {
        forall x | x in Names(f) ensures x in Names(d) {
          var i :| 0 <= i < |f| && f[i].name == x;
          assert d[i].name == x;
        }
      }
      assert e.name in Names(d);
    }
  }

  lemma {:induction false} EntrySegsShape(e: Entry)
    requires IsName(e.name, '/')
    requires e.node.Folder? ==> WellFormed(e.node.children)
    ensures forall k :: 0 <= k < |EntryFolderSegs(e)| ==>
      ValidSegs(EntryFolderSegs(e)[k]) && EntryFolderSegs(e)[k][0] == e.name
    decreases e
  {
    if e.node.Folder? {
      var c := e.node.children;
      SegsShape(c);
      var es := EntryFolderSegs(e);
      forall k | 0 <= k < |es|
        ensures ValidSegs(es[k]) && es[k][0] == e.name
      {
        if k > 0 {
          var s := FolderSegs(c)[k - 1];
          assert es[k] == [e.name] + s;
        }
      }
    }
  }

  /** No folder is listed twice. */
  lemma {:induction false} SegsDistinct(d: seq<Entry>)
    requires WellFormed(d)
    ensures Distinct(FolderSegs(d))
    decreases d
  {
    if |d| > 0 {
      var f := d[..|d| - 1];
      var e := d[|d| - 1];
      WellFormedFront(d);
      SegsDistinct(f);
      EntrySegsDistinct(e);
      SegsShape(f);
      EntrySegsShape(e);
      var a, b := FolderSegs(f), EntryFolderSegs(e);
      forall i, j | 0 <= i < |a| && 0 <= j < |b| ensures a[i] != b[j] {
        var x := a[i][0];
        assert x in Names(f);
        var m :| 0 <= m < |f| && f[m].name == x;
        assert d[m].name == x && m < |d| - 1;
      }
      DistinctAppend(a, b);
    }
  }

  lemma {:induction false} EntrySegsDistinct(e: Entry)
    requires IsName(e.name, '/')
    requires e.node.Folder? ==> WellFormed(e.node.children)
    ensures Distinct(EntryFolderSegs(e))
    decreases e
  {
    if e.node.Folder? {
      var c := e.node.children;
      SegsDistinct(c);
      SegsShape(c);
      var ss := FolderSegs(c);
      var es := EntryFolderSegs(e);
      forall i, j | 0 <= i < j < |es| ensures es[i] != es[j] {
        assert es[j] == [e.name] + ss[j - 1];
        if i == 0 {
          assert |es[j]| > 1;
        } else {
          assert es[i] == [e.name] + ss[i - 1];
          assert es[i][1..] == ss[i - 1] && es[j][1..] == ss[j - 1];
        }
      }
    }
  }

  /** Each folder comes after its parent folder. */
  lemma {:induction false} SegsParentsFirst(d: seq<Entry>)
    requires WellFormed(d)
    ensures ParentsFirst(FolderSegs(d))
    decreases d
  {
    if |d| > 0 {
      var f := d[..|d| - 1];
      WellFormedFront(d);
      SegsParentsFirst(f);
      EntrySegsParentsFirst(d[|d| - 1]);
      ParentsFirstAppend(FolderSegs(f), EntryFolderSegs(d[|d| - 1]));
    }
  }

  lemma {:induction false} EntrySegsParentsFirst(e: Entry)
    requires IsName(e.name, '/')
    requires e.node.Folder? ==> WellFormed(e.node.children)
    ensures ParentsFirst(EntryFolderSegs(e))
    decreases e
  {
    if e.node.Folder? {
      var c := e.node.children;
      SegsParentsFirst(c);
      SegsShape(c);
      var es := EntryFolderSegs(e);
      forall k | 0 <= k < |es| && |es[k]| > 1
        ensures exists m :: 0 <= m < k && es[m] == es[k][..|es[k]| - 1]
      {
        PrefixedParent(e.name, FolderSegs(c), k);
      }
    }
  }

  lemma PrefixedParent(x: string, ss: seq<seq<string>>, k: int)
    requires ParentsFirst(ss)
    requires forall i :: 0 <= i < |ss| ==> |ss[i]| >= 1
    requires 0 < k <= |ss|
    ensures var es := [[x]] + Prefixed(x, ss);
      exists m :: 0 <= m < k && es[m] == es[k][..|es[k]| - 1]
  {
    var es := [[x]] + Prefixed(x, ss);
    var s := ss[k - 1];
    assert es[k] == [x] + s;
    assert es[k][..|es[k]| - 1] == [x] + s[..|s| - 1];
    if |s| == 1 {
      assert es[0] == [x] + s[..0];
    } else {
      var m :| 0 <= m < k - 1 && ss[m] == s[..|s| - 1];
      assert es[m + 1] == [x] + ss[m];
    }
  }

  // ---------------------------------------------------------------------
  // The listing names exactly the folders of the tree

  lemma {:induction false} InSegsOfSomeEntry(d: seq<Entry>, p: seq<string>)
    ensures p in FolderSegs(d) <==> exists i :: 0 <= i < |d| && p in EntryFolderSegs(d[i])
    decreases |d|
  {
    if |d| > 0 {
      var f := d[..|d| - 1];
      InSegsOfSomeEntry(f, p);
      if p in FolderSegs(f) {
        var i :| 0 <= i < |f| && p in EntryFolderSegs(f[i]);
        assert f[i] == d[i];
      }
      if exists i :: 0 <= i < |d| && p in EntryFolderSegs(d[i]) {
        var i :| 0 <= i < |d| && p in EntryFolderSegs(d[i]);
        if i < |d| - 1 {
          assert f[i] == d[i];
        }
      }
    }
  }

  lemma InPrefixed(x: string, ss: seq<seq<string>>, p: seq<string>)
    ensures p in Prefixed(x, ss) <==> |p| >= 1 && p[0] == x && p[1..] in ss
  {
    var r := Prefixed(x, ss);
    if p in r {
      var k :| 0 <= k < |r| && r[k] == p;
      assert p[1..] == ss[k];
    }
    if |p| >= 1 && p[0] == x && p[1..] in ss {
      var k :| 0 <= k < |ss| && ss[k] == p[1..];
      assert r[k] == p;
    }
  }

  /** A list of names is in the listing exactly when a folder sits there. */
  lemma {:induction false} SegsAreFolders(d: seq<Entry>, p: seq<string>)
    requires WellFormed(d)
    ensures p in FolderSegs(d) <==> FolderAt(d, p)
    decreases d
  {
    InSegsOfSomeEntry(d, p);
    if p in FolderSegs(d) {
      var i :| 0 <= i < |d| && p in EntryFolderSegs(d[i]);
      var c := d[i].node.children;
      assert IndexOf(d, d[i].name) == i;
      if p != [d[i].name] {
        InPrefixed(d[i].name, FolderSegs(c), p);
        SegsShape(c);
        SegsAreFolders(c, p[1..]);
      }
    }
    if FolderAt(d, p) {
      var k := IndexOf(d, p[0]);
      assert d[k].node.Folder?;
      var c := d[k].node.children;
      if |p| == 1 {
        assert p == [d[k].name];
        assert p in EntryFolderSegs(d[k]);
      } else {
        SegsAreFolders(c, p[1..]);
        InPrefixed(d[k].name, FolderSegs(c), p);
        assert p in EntryFolderSegs(d[k]);
      }
    }
  }

  // ---------------------------------------------------------------------
  // The string listing is the joined name lists

  lemma {:induction false} PathsAreJoinedSegs(d: seq<Entry>, p: seq<string>)
    requires WellFormed(d)
    requires forall j :: 0 <= j < |p| ==> IsName(p[j], '/')
    ensures FolderPaths(d, Join(p, '/')) == JoinAll(Under(p, FolderSegs(d)))
    decreases d
  {
    if |d| > 0 {
      var f := d[..|d| - 1];
      var e := d[|d| - 1];
      WellFormedFront(d);
      PathsAreJoinedSegs(f, p);
      EntryPathsAreJoinedSegs(e, p);
      var a, b := FolderSegs(f), EntryFolderSegs(e);
      assert Under(p, a + b) == Under(p, a) + Under(p, b);
      assert JoinAll(Under(p, a) + Under(p, b)) == JoinAll(Under(p, a)) + JoinAll(Under(p, b));
    }
  }

  lemma {:induction false} EntryPathsAreJoinedSegs(e: Entry, p: seq<string>)
    requires IsName(e.name, '/')
    requires e.node.Folder? ==> WellFormed(e.node.children)
    requires forall j :: 0 <= j < |p| ==> IsName(p[j], '/')
    ensures EntryFolderPaths(e, Join(p, '/')) == JoinAll(Under(p, EntryFolderSegs(e)))
    decreases e
  {
    if e.node.Folder? {
      var c := e.node.children;
      var q := p + [e.name];
      ChildPathOfJoin(p, e.name);
      PathsAreJoinedSegs(c, q);
      var ss := FolderSegs(c);
      assert Under(p, [[e.name]] + Prefixed(e.name, ss)) == [q] + Under(q, ss) by {
        var l, r := Under(p, [[e.name]] + Prefixed(e.name, ss)), [q] + Under(q, ss);
        forall k | 0 <= k < |l| ensures l[k] == r[k] {
          if k > 0 {
            assert p + ([e.name] + ss[k - 1]) == q + ss[k - 1];
          }
        }
      }
      assert JoinAll([q] + Under(q, ss)) == [Join(q, '/')] + JoinAll(Under(q, ss));
    }
  }

  lemma JoinedSegsShape(ss: seq<seq<string>>, k: int)
    requires 0 <= k < |ss| && ValidSegs(ss[k])
    ensures var x := JoinAll(ss)[k];
      && x != "" && x[0] != '/'
      && ('/' in x <==> |ss[k]| > 1)
  {
    var s := ss[k];
    var x := Join(s, '/');
    JoinNonEmpty(s, '/');
    if |s| == 1 {
      assert x == s[0];
    } else {
      assert x == s[0] + ['/'] + Join(s[1..], '/');
      assert x[0] == s[0][0];
      assert x[|s[0]|] == '/';
    }
  }

  /** From the root, the string listing is the joined name lists. */
  lemma ListingIsJoinedSegs(d: seq<Entry>)
    requires WellFormed(d)
    ensures FolderPaths(d, "") == JoinAll(FolderSegs(d))
  {
    var ss := FolderSegs(d);
    PathsAreJoinedSegs(d, []);
    assert Join([], '/') == "";
    assert Under([], ss) == ss by {
      forall k | 0 <= k < |ss| ensures Under([], ss)[k] == ss[k] {
        assert [] + ss[k] == ss[k];
      }
    }
  }

  /** Every folder of the tree is listed, as its names joined by "/". */
  lemma ListsEveryFolder(d: seq<Entry>, p: seq<string>)
    requires WellFormed(d)
    requires FolderAt(d, p)
    ensures Join(p, '/') in FolderPaths(d, "")
  {
    ListingIsJoinedSegs(d);
    SegsAreFolders(d, p);
    var ss := FolderSegs(d);
    var k :| 0 <= k < |ss| && ss[k] == p;
    assert JoinAll(ss)[k] == Join(p, '/');
  }

  /** Only folders are listed: files contribute nothing. */
  lemma ListsOnlyFolders(d: seq<Entry>, k: int)
    requires WellFormed(d)
    requires 0 <= k < |FolderPaths(d, "")|
    ensures exists p :: FolderAt(d, p) && FolderPaths(d, "")[k] == Join(p, '/')
  {
    ListingIsJoinedSegs(d);
    var ss := FolderSegs(d);
    SegsAreFolders(d, ss[k]);
    assert FolderPaths(d, "")[k] == Join(ss[k], '/');
  }

  /** No folder path is listed twice. */
  lemma ListsEachOnce(d: seq<Entry>)
    requires WellFormed(d)
    ensures Distinct(FolderPaths(d, ""))
  {
    ListingIsJoinedSegs(d);
    SegsShape(d);
    SegsDistinct(d);
    var ss := FolderSegs(d);
    var r := FolderPaths(d, "");
    forall i, j | 0 <= i < j < |r| ensures r[i] != r[j] {
      if r[i] == r[j] {
        JoinInjective(ss[i], ss[j], '/');
      }
    }
  }

  /** Listed paths are relative: non-empty, no leading slash. */
  lemma ListsRelativePaths(d: seq<Entry>)
    requires WellFormed(d)
    ensures forall k :: 0 <= k < |FolderPaths(d, "")| ==>
      FolderPaths(d, "")[k] != "" && FolderPaths(d, "")[k][0] != '/'
  {
    ListingIsJoinedSegs(d);
    SegsShape(d);
    var ss := FolderSegs(d);
    forall k | 0 <= k < |ss| ensures JoinAll(ss)[k] != "" && JoinAll(ss)[k][0] != '/' {
      JoinedSegsShape(ss, k);
    }
  }

  /** A nested folder's parent path is listed before it. */
  lemma ListsParentFirst(d: seq<Entry>, k: int)
    requires WellFormed(d)
    requires 0 <= k < |FolderPaths(d, "")| && '/' in FolderPaths(d, "")[k]
    ensures var r := FolderPaths(d, "");
      exists m :: 0 <= m < k && r[k] == r[m] + "/" + LastPart(r[k], '/')
  {
    ListingIsJoinedSegs(d);
    SegsShape(d);
    SegsParentsFirst(d);
    var ss := FolderSegs(d);
    var r := FolderPaths(d, "");
    JoinedSegsShape(ss, k);
    var s := ss[k];
    var m :| 0 <= m < k && ss[m] == s[..|s| - 1];
    assert s == ss[m] + [s[|s| - 1]];
    JoinSnoc(ss[m], s[|s| - 1], '/');
    SplitJoin(s, '/');
    assert r[k] == r[m] + "/" + LastPart(r[k], '/');
  }
}
