/**
 * The pane switching of the collaborative playground (components/Editor.tsx,
 * and the same tab buttons in components/LeftPane.tsx): one tab button per
 * pane, only the active pane shown, and the HTML editor mounted only once
 * the shared document and its version have arrived from the server.  The
 * server exchange itself is not part of this model.
 */
module CollabEditor {
  import opened Wrappers
  import opened Editing

  /** The pane is on the page and not `hidden`. */
  function Visible(p: Pane, activeEditor: Pane, htmlCode: Option<string>, version: Option<int>): bool
  {
    var mounted := p != Html || (htmlCode.Some? && version.Some?);
    mounted && p == activeEditor
  }

  /** Once the document is loaded exactly the active pane is visible. */
  lemma OnlyActivePaneVisible(activeEditor: Pane, doc: string, version: int)
    ensures forall p :: Visible(p, activeEditor, Some(doc), Some(version)) <==> p == activeEditor
  {
  }

  /** Before the document and its version are both known the HTML pane is never shown. */
  lemma HtmlWaitsForDocument(activeEditor: Pane, htmlCode: Option<string>, version: Option<int>)
    requires htmlCode.None? || version.None?
    ensures !Visible(Html, activeEditor, htmlCode, version)
  {
  }

  class EditorPanes {
    var activeEditor: Pane
    var htmlCode: Option<string>
    var version: Option<int>

    /** HTML is active, and the document is not there yet. */
    constructor ()
      ensures activeEditor == Html && htmlCode.None? && version.None?
    {
      activeEditor := Html;
      htmlCode := None;
      version := None;
    }

    /** `getDocument()` resolved. */
    method DocumentLoaded(doc: string, v: int)
      modifies this
      ensures htmlCode == Some(doc) && version == Some(v) && activeEditor == old(activeEditor)
    {
      htmlCode := Some(doc);
      version := Some(v);
    }

    /** A tab button: that pane becomes the active one. */
    method SelectTab(p: Pane)
      modifies this
      ensures activeEditor == p && htmlCode == old(htmlCode) && version == old(version)
    {
      activeEditor := p;
    }

    function IsVisible(p: Pane): bool
      reads this
    {
      Visible(p, activeEditor, htmlCode, version)
    }
  }
}
