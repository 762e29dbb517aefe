/**
 * The state of the Sandpack file explorer (`CustomFileExplorer` in
 * src/components/CustomFileExplorer.tsx): which folders are expanded,
 * which file is waiting for delete confirmation, and what deleting does.
 *
 * `files` is `Object.keys(sandpack.files)` and `activeFile` is Sandpack's
 * active file; both belong to Sandpack and change only through `FilesChanged`.
 * The calls into Sandpack are returned as `Effect`s.
 */
module Explorer {
  import opened Wrappers
  import opened Strings
  import opened FileTree
  import opened FolderList
  import opened ExplorerView
  import opened Sandpack

  /** `allFolders`: the root "" and the listed folder paths; `None` when building throws. */
  function AllFolders(files: seq<string>): Option<seq<string>>
  {
    match Organize(files)
    case None => None
    case Some(t) => Some([""] + FolderPaths(t, ""))
  }

  function AsSet(s: seq<string>): set<string>
  {
    set x | x in s
  }

  /** The root and exactly the folders of the tree, each written as its names joined by "/". */
  lemma AllFoldersAreFolders(files: seq<string>, x: string)
    requires Organize(files).Some?
    ensures var t := Organize(files).value;
      x in AllFolders(files).value <==> x == "" || exists p :: FolderAt(t, p) && x == Join(p, '/')
  {
    var t := Organize(files).value;
    OrganizeWellFormed(files);
    var r := FolderPaths(t, "");
    if x in r {
      var k :| 0 <= k < |r| && r[k] == x;
      ListsOnlyFolders(t, k);
    }
    if exists p :: FolderAt(t, p) && x == Join(p, '/') {
      var p :| FolderAt(t, p) && x == Join(p, '/');
      ListsEveryFolder(t, p);
    }
  }

  /** `toggleFolder`: the copied set with `folderPath` removed when present and added otherwise. */
  function Toggled(s: set<string>, folderPath: string): set<string>
  {
    if folderPath in s then s - {folderPath} else s + {folderPath}
  }

  /** Toggling flips the membership of exactly the given path. */
  lemma ToggleFlipsOnly(s: set<string>, folderPath: string)
    ensures folderPath in Toggled(s, folderPath) <==> folderPath !in s
    ensures forall q :: q != folderPath ==> (q in Toggled(s, folderPath) <==> q in s)
  {
  }

  /** Toggling the same folder twice restores the set. */
  lemma ToggleTwice(s: set<string>, folderPath: string)
    ensures Toggled(Toggled(s, folderPath), folderPath) == s
  {
  }

  // ---------------------------------------------------------------------
  // Deleting a file

  /** `!fileToDelete`: absent or the empty string. */
  predicate Falsy(target: Option<string>)
  {
    target.None? || target.value == ""
  }

  /** `Object.keys(files).filter((f) => f !== fileToDelete)`. */
  function Remaining(files: seq<string>, t: string): (r: seq<string>)
    ensures forall x :: x in r <==> x in files && x != t
  {
    if files == [] then []
    else (if files[0] != t then [files[0]] else []) + Remaining(files[1..], t)
  }

  /** The calls `handleDelete` makes into Sandpack and the browser, in order. */
  function DeleteEffects(files: seq<string>, activeFile: string, target: Option<string>): seq<Effect>
  {
    if Falsy(target) then []
    else if |files| <= 1 then [Alert("Cannot delete the last file")]
    else
      var t := target.value;
      var remaining := Remaining(files, t);
      [DeleteFile(t)] + (if t == activeFile && |remaining| > 0 then [OpenFile(remaining[0])] else [])
  }

  /** `fileToDelete` after `handleDelete`: cleared unless the early return was taken. */
  function TargetAfterDelete(target: Option<string>): Option<string>
  {
    if Falsy(target) then target else None
  }

  /** With no target nothing happens. */
  lemma DeleteWithoutTarget(files: seq<string>, activeFile: string, target: Option<string>)
    requires Falsy(target)
    ensures DeleteEffects(files, activeFile, target) == []
    ensures TargetAfterDelete(target) == target
  {
  }

  /** The last file is never deleted: the user is told, and the target is cleared. */
  lemma LastFileKept(files: seq<string>, activeFile: string, target: Option<string>)
    requires !Falsy(target) && |files| <= 1
    ensures DeleteEffects(files, activeFile, target) == [Alert("Cannot delete the last file")]
    ensures TargetAfterDelete(target) == None
  {
  }

  /**
   * With two or more files the target is deleted first; a fallback file is
   * opened exactly when the deleted file was the active one, and it is the
   * first other file in key order.
   */
  lemma DeleteOpensFallback(files: seq<string>, activeFile: string, target: Option<string>)
    requires !Falsy(target) && |files| >= 2
    requires Distinct(files)
    ensures var e := DeleteEffects(files, activeFile, target);
      && |e| >= 1 && e[0] == DeleteFile(target.value)
      && (|e| == 2 <==> target.value == activeFile)
      && |e| <= 2
      && (|e| == 2 ==>
            e[1].OpenFile? && exists i :: IsFirstOther(files, i, target.value) && files[i] == e[1].path)
    ensures TargetAfterDelete(target) == None
  {
    var t := target.value;
    assert files[0] != t || files[1] != t by {
      assert files[0] != files[1];
    }
    FirstRemaining(files, t);
  }

  lemma {:induction false} FirstRemaining(files: seq<string>, t: string)
    requires exists i :: 0 <= i < |files| && files[i] != t
    ensures |Remaining(files, t)| > 0
    ensures exists i :: IsFirstOther(files, i, t) && files[i] == Remaining(files, t)[0]
  {
    if files[0] == t {
      var i :| 0 <= i < |files| && files[i] != t;
      assert files[1..][i - 1] == files[i];
      FirstRemaining(files[1..], t);
      var k :| IsFirstOther(files[1..], k, t) && files[1..][k] == Remaining(files[1..], t)[0];
      assert files[k + 1] == Remaining(files, t)[0];
      assert forall j :: 0 <= j < k + 1 ==> files[j] == t by {
        forall j | 0 < j < k + 1 ensures files[j] == t {
          assert files[j] == files[1..][j - 1];
        }
      }
      assert IsFirstOther(files, k + 1, t);
    } else {
      assert files[0] == Remaining(files, t)[0];
      assert IsFirstOther(files, 0, t);
    }
  }

  /** `files[i]` is the first file other than `t`. */
  predicate IsFirstOther(files: seq<string>, i: int, t: string)
  {
    0 <= i < |files| && files[i] != t && forall j :: 0 <= j < i ==> files[j] == t
  }

  // ---------------------------------------------------------------------
  // What is shown

  datatype Pane = NoFilesYet | Tree(rows: seq<Row>)

  /** The explorer's content: a notice with no files, the rendered tree otherwise. */
  function Content(files: seq<string>, expanded: set<string>, activeFile: string,
                   le: (string, string) -> bool): Option<Pane>
  {
    if |files| == 0 then Some(NoFilesYet)
    else
      match Organize(files)
      case None => None
      case Some(t) => Some(Tree(Render(t, 0, "", expanded, activeFile, le)))
  }

  /**
   * While every folder is in the expanded set (as right after mounting or a
   * change of files, before any toggle) every folder row is open.
   */
  lemma EveryFolderOpen(files: seq<string>, expanded: set<string>, activeFile: string,
                        le: (string, string) -> bool)
    requires |files| > 0 && Organize(files).Some?
    requires AsSet(AllFolders(files).value) <= expanded
    ensures forall r :: r in Content(files, expanded, activeFile, le).value.rows && r.FolderRow? ==>
      r.isExpanded
  {
    RenderedFoldersListed(Organize(files).value, 0, "", expanded, activeFile, le);
  }

  // ---------------------------------------------------------------------
  // The component

  class FileExplorer {
    var files: seq<string>
    var activeFile: string
    var expanded: set<string>
    var fileToDelete: Option<string>

    /** Sandpack's keys are distinct and build a tree. */
    ghost predicate Valid()
      reads this
    {
      Distinct(files) && Organize(files).Some?
    }

    /** Mounting: every folder, and the root, starts expanded; nothing awaits deletion. */
    constructor (files: seq<string>, activeFile: string)
      requires Distinct(files) && Organize(files).Some?
      ensures Valid()
      ensures this.files == files && this.activeFile == activeFile
      ensures expanded == AsSet(AllFolders(files).value)
      ensures fileToDelete == None
    {
      this.files := files;
      this.activeFile := activeFile;
      var structure := OrganizeFiles(files);
      var folders := CollectAllFolders(structure.value, "");
      expanded := AsSet([""] + folders);
      fileToDelete := None;
    }

    /** Sandpack's files changed: the expanded set grows by the new folder list and never shrinks. */
    method FilesChanged(newFiles: seq<string>, newActive: string)
      requires Distinct(newFiles) && Organize(newFiles).Some?
      modifies this
      ensures Valid()
      ensures files == newFiles && activeFile == newActive
      ensures expanded == old(expanded) + AsSet(AllFolders(newFiles).value)
      ensures fileToDelete == old(fileToDelete)
    {
      files := newFiles;
      activeFile := newActive;
      var structure := OrganizeFiles(files);
      var folders := CollectAllFolders(structure.value, "");
      expanded := expanded + AsSet([""] + folders);
    }

    /** A click on a folder row. */
    method ToggleFolder(folderPath: string)
      requires Valid()
      modifies this
      ensures Valid()
      ensures expanded == Toggled(old(expanded), folderPath)
      ensures files == old(files) && activeFile == old(activeFile) && fileToDelete == old(fileToDelete)
    {
      var newExpanded := expanded;
      if folderPath in newExpanded {
        newExpanded := newExpanded - {folderPath};
      } else {
        newExpanded := newExpanded + {folderPath};
      }
      expanded := newExpanded;
    }

    /** The trash button of a file row. */
    method RequestDelete(filePath: string)
      requires Valid()
      modifies this
      ensures Valid()
      ensures fileToDelete == Some(filePath)
      ensures files == old(files) && activeFile == old(activeFile) && expanded == old(expanded)
    {
      fileToDelete := Some(filePath);
    }

    /** The dialog closes without deleting. */
    method CancelDelete()
      requires Valid()
      modifies this
      ensures Valid()
      ensures fileToDelete == None
      ensures files == old(files) && activeFile == old(activeFile) && expanded == old(expanded)
    {
      fileToDelete := None;
    }

    /** `handleDelete`: returns the calls made; Sandpack reports the new files later. */
    method HandleDelete() returns (effects: seq<Effect>)
      requires Valid()
      modifies this
      ensures Valid()
      ensures effects == DeleteEffects(old(files), old(activeFile), old(fileToDelete))
      ensures fileToDelete == TargetAfterDelete(old(fileToDelete))
      ensures files == old(files) && activeFile == old(activeFile) && expanded == old(expanded)
    {
      effects := [];
      if fileToDelete.None? || fileToDelete.value == "" {
        return;
      }
      var t := fileToDelete.value;
      if |files| <= 1 {
        effects := [Alert("Cannot delete the last file")];
        fileToDelete := None;
        return;
      }
      effects := [DeleteFile(t)];
      if t == activeFile {
        var remainingFiles := Remaining(files, t);
        if |remainingFiles| > 0 {
          effects := effects + [OpenFile(remainingFiles[0])];
        }
      }
      fileToDelete := None;
    }

    /** What the explorer shows in the current state. */
    function View(le: (string, string) -> bool): Pane
      reads this
      requires Valid()
    {
      Content(files, expanded, activeFile, le).value
    }
  }
}
