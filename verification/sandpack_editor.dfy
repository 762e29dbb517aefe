/**
 * The Sandpack editor's saving (src/SandpackEditor.tsx): detecting unsaved
 * changes by comparing Sandpack's files with the project's saved files,
 * building the payload of a save, the Ctrl/Cmd+S trigger, and the files a
 * project opens with.
 *
 * Sandpack's files are a record from path to a bundler file; the saved
 * files are a record from path to `{ code }`, here the code itself.
 */
module SandpackEditor {
  import opened Wrappers
  import opened Sandpack
  import opened Projects
  import opened Editing

  /** A file as Sandpack holds it; only `code` is saved. */
  datatype BundlerFile = BundlerFile(code: string, hidden: bool, active: bool, readOnly: bool)

  /** The path-to-code map of Sandpack's files. */
  function Codes(current: map<string, BundlerFile>): (r: map<string, string>)
    ensures r.Keys == current.Keys
  {
    map p | p in current :: current[p].code
  }

  /** `project.files || {}`. */
  function SavedFiles(saved: Option<map<string, string>>): map<string, string>
  {
    saved.GetOr(map[])
  }

  /** There are unsaved changes: the current path-to-code map differs from the saved one. */
  predicate Changed(current: map<string, BundlerFile>, saved: Option<map<string, string>>)
  {
    Codes(current) != SavedFiles(saved)
  }

  /**
   * `hasChanges`: different file counts, or a current path that is not saved
   * or whose code differs.  It decides whether the Save button is shown and
   * whether leaving the page asks for confirmation.
   */
  method HasChanges(current: map<string, BundlerFile>, saved: Option<map<string, string>>)
    returns (changed: bool)
    ensures changed <==> Changed(current, saved)
  {
    var savedFiles := saved.GetOr(map[]);
    if |current| != |savedFiles| {
      assert |Codes(current).Keys| != |savedFiles.Keys|;
      return true;
    }
    var rest := current.Keys;
    while rest != {}
      invariant rest <= current.Keys
      invariant forall p :: p in current && p !in rest ==> p in savedFiles && savedFiles[p] == current[p].code
    {
      var p :| p in rest;
      if p !in savedFiles || savedFiles[p] != current[p].code {
        assert Codes(current)[p] == current[p].code;
        return true;
      }
      rest := rest - {p};
    }
    SubsetSameSize(current.Keys, savedFiles.Keys);
    assert Codes(current) == savedFiles;
    return false;
  }

  /** A subset as large as the whole set is the whole set. */
  lemma SubsetSameSize<T>(a: set<T>, b: set<T>)
    requires a <= b && |a| == |b|
    ensures a == b
  {
    assert |b - a| == |b| - |a|;
  }

  /** `formattedFiles`, filled by the `forEach` over Sandpack's files. */
  method SavePayload(current: map<string, BundlerFile>) returns (formattedFiles: map<string, string>)
    ensures formattedFiles == Codes(current)
  {
    formattedFiles := map[];
    var rest := current.Keys;
    while rest != {}
      invariant rest <= current.Keys
      invariant formattedFiles.Keys == current.Keys - rest
      invariant forall p :: p in formattedFiles ==> formattedFiles[p] == current[p].code
    {
      var p :| p in rest;
      formattedFiles := formattedFiles[p := current[p].code];
      rest := rest - {p};
    }
  }

  /** The arguments of the `update` call a save makes: only `files`. */
  function SaveArgs(current: map<string, BundlerFile>): UpdateArgs
  {
    UpdateArgs(None, None, None, Some(Codes(current)))
  }

  /** `handleSave`: the `update` arguments. */
  method HandleSave(current: map<string, BundlerFile>) returns (args: UpdateArgs)
    ensures args == SaveArgs(current)
  {
    var formattedFiles := SavePayload(current);
    args := UpdateArgs(None, None, None, Some(formattedFiles));
  }

  /**
   * The payload holds the same paths with the same code; once stored, the
   * editor has no changes, and the project's html, css and js are untouched.
   */
  lemma SaveClearsChanges(p: Project, current: map<string, BundlerFile>)
    ensures var q := ApplyPatch(p, Patch(SaveArgs(current)));
      && q.files == Some(Codes(current))
      && !Changed(current, q.files)
      && q.html == p.html && q.css == p.css && q.js == p.js && q.kind == p.kind
  {
    UpdateReplacesSuppliedFields(p, SaveArgs(current));
  }

  /** Ctrl or Cmd with a lower-case "s". */
  predicate SaveRequested(ev: KeyEvent)
  {
    (ev.ctrlKey || ev.metaKey) && ev.key == "s"
  }

  /** Either modifier saves with "s"; "S" does not, nor does "s" alone. */
  lemma SaveChordIsLowerCase(alt: bool, ctrl: bool, meta: bool)
    ensures SaveRequested(KeyEvent("s", true, false, alt)) && SaveRequested(KeyEvent("s", false, true, alt))
    ensures !SaveRequested(KeyEvent("S", ctrl, meta, alt))
    ensures !SaveRequested(KeyEvent("s", false, false, alt))
  {
  }

  /** `project.files || defaultFiles`: the files the editor opens with. */
  function InitialFiles(projectFiles: Option<map<string, string>>): map<string, string>
  {
    projectFiles.GetOr(map["/App.js" := AppJsCode])
  }

  /**
   * Sandpack's files when the provider is mounted with `template="react"` and
   * the given codes: the template's files, each path the project has replaced
   * by the project's code (nothing hidden, active or read-only).  The
   * template's own files are a parameter; the model does not fix them.
   */
  function Mounted(template: map<string, BundlerFile>, files: map<string, string>): map<string, BundlerFile>
  {
    map p | p in template.Keys + files.Keys ::
      if p in files then BundlerFile(files[p], false, false, false) else template[p]
  }

  /**
   * A project without files opens with the single "/App.js"; a project with
   * files, even an empty record, opens with exactly those.
   */
  lemma InitialFilesFallback(projectFiles: Option<map<string, string>>)
    ensures projectFiles.None? ==>
      InitialFiles(projectFiles).Keys == {"/App.js"} && InitialFiles(projectFiles)["/App.js"] == AppJsCode
    ensures projectFiles.Some? ==> InitialFiles(projectFiles) == projectFiles.value
  {
  }

  /**
   * Mounting shows every template path and every project path; a project path
   * carries the project's code, a path only the template has keeps the
   * template's code.
   */
  lemma MountedCodes(template: map<string, BundlerFile>, files: map<string, string>)
    ensures Codes(Mounted(template, files)).Keys == template.Keys + files.Keys
    ensures forall p :: p in files ==> Codes(Mounted(template, files))[p] == files[p]
    ensures forall p :: p in template && p !in files ==> Codes(Mounted(template, files))[p] == template[p].code
  {
  }

  /**
   * A project with files opens without changes (and so without a Save button)
   * exactly when it saved every path of the template; a template path it
   * lacks is shown as an unsaved change from the start.
   */
  lemma OpenedProjectUnchanged(template: map<string, BundlerFile>, files: map<string, string>)
    ensures !Changed(Mounted(template, InitialFiles(Some(files))), Some(files)) <==> template.Keys <= files.Keys
  {
    var current := Codes(Mounted(template, files));
    MountedCodes(template, files);
    if template.Keys <= files.Keys {
      assert current.Keys == files.Keys;
      assert current == files;
    } else {
      var p :| p in template.Keys && p !in files.Keys;
      assert p in current.Keys;
      assert current != files;
    }
  }

  /** A project without files opens with changes: at least the fallback "/App.js" is not saved. */
  lemma FilelessProjectStartsChanged(template: map<string, BundlerFile>)
    ensures Changed(Mounted(template, InitialFiles(None)), None)
  {
    var current := Mounted(template, InitialFiles(None));
    assert "/App.js" in current;
    NothingSavedAnythingChanged(current, "/App.js");
  }

  /** With no saved files, any current file is a change. */
  lemma NothingSavedAnythingChanged(current: map<string, BundlerFile>, path: string)
    requires path in current
    ensures Changed(current, None)
  {
    assert path in Codes(current);
  }
}
