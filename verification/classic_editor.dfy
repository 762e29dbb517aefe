/**
 * The classic three-pane playground (src/App.tsx; app/page.tsx is the same
 * editor without sharing or theme, starting empty).  Each pane has an edit
 * buffer and a saved copy; the preview shows the saved copies.  Ctrl/Cmd+S
 * saves the focused pane, Alt+1/2/3 switch panes, and Share puts the saved
 * code into a link.
 *
 * JSON encoding, the clipboard, toasts and `localStorage` are left to the
 * caller: the decoded link object and the stored flag strings are inputs,
 * and what would be stored or shared is returned.  The URL encoding of the
 * link is in UrlCodec.
 */
module ClassicEditor {
  import opened Wrappers
  import opened Editing
  import opened SourceDoc

  /** The object decoded from the `code` URL parameter; a missing parameter decodes to `{}`. */
  datatype SharedCode = SharedCode(htmlCode: Option<string>, cssCode: Option<string>, jsCode: Option<string>)

  /** A stored flag is on exactly when the stored string is "true". */
  function StoredFlag(value: Option<string>): bool
  {
    value == Some("true")
  }

  /** `isChecked.toString()`, what a switch stores. */
  function FlagText(isChecked: bool): string
  {
    if isChecked then "true" else "false"
  }

  /** A flag written by its switch reads back as the same flag; nothing else but "true" turns it on. */
  lemma FlagRoundTrip(isChecked: bool, other: Option<string>)
    requires other != Some("true")
    ensures StoredFlag(Some(FlagText(isChecked))) == isChecked
    ensures !StoredFlag(other)
  {
  }

  /** Ctrl or Cmd together with "s" or "S". */
  predicate SaveChord(ev: KeyEvent)
  {
    (ev.ctrlKey || ev.metaKey) && (ev.key == "s" || ev.key == "S")
  }

  /** The digit that selects a pane with Alt. */
  function Digit(p: Pane): string
  {
    match p
    case Html => "1"
    case Css => "2"
    case Js => "3"
  }

  /** The pane the key handler of pane `p` switches to, if any: Alt+1/2/3, except its own number. */
  function TabShortcut(p: Pane, ev: KeyEvent): Option<Pane>
  {
    if ev.altKey && ev.key == "1" && p != Html then Some(Html)
    else if ev.altKey && ev.key == "2" && p != Css then Some(Css)
    else if ev.altKey && ev.key == "3" && p != Js then Some(Js)
    else None
  }

  /** Alt with a pane's number selects that pane; in that pane itself it does nothing. */
  lemma AltDigitSelectsPane(p: Pane, ev: KeyEvent, q: Pane)
    requires ev.altKey && ev.key == Digit(q)
    ensures TabShortcut(p, ev) == if q == p then None else Some(q)
  {
  }

  /** Only Alt with "1", "2" or "3" switches, and never to the pane already focused. */
  lemma OnlyAltDigitsSwitch(p: Pane, ev: KeyEvent)
    requires TabShortcut(p, ev).Some?
    ensures ev.altKey && ev.key == Digit(TabShortcut(p, ev).value) && TabShortcut(p, ev).value != p
  {
  }

  /** Both cases of "s" save, with either modifier; without a modifier nothing saves. */
  lemma SaveChordCases(key: string, alt: bool)
    ensures SaveChord(KeyEvent("s", true, false, alt)) && SaveChord(KeyEvent("S", false, true, alt))
    ensures !SaveChord(KeyEvent(key, false, false, alt))
  {
  }

  /** What Share puts in the link: nothing when all three saved codes are empty. */
  function ShareLink(htmlCode: string, cssCode: string, jsCode: string): Option<SharedCode>
  {
    if htmlCode == "" && cssCode == "" && jsCode == "" then None
    else Some(SharedCode(Some(htmlCode), Some(cssCode), Some(jsCode)))
  }

  /** Sharing is refused exactly when nothing is saved, and the shared object carries the saved codes. */
  lemma ShareRoundTrip(htmlCode: string, cssCode: string, jsCode: string)
    ensures ShareLink(htmlCode, cssCode, jsCode).None? <==> htmlCode == "" && cssCode == "" && jsCode == ""
    ensures ShareLink(htmlCode, cssCode, jsCode).Some? ==>
      var obj := ShareLink(htmlCode, cssCode, jsCode).value;
      obj.htmlCode.GetOr("") == htmlCode && obj.cssCode.GetOr("") == cssCode && obj.jsCode.GetOr("") == jsCode
  {
  }

  class Playground {
    var htmlBuffer: string
    var cssBuffer: string
    var jsBuffer: string
    var htmlCode: string
    var cssCode: string
    var jsCode: string
    var activeTab: Pane
    var isVimEnabled: bool
    var isTailwindEnabled: bool

    function Buffer(p: Pane): string
      reads this
    {
      match p
      case Html => htmlBuffer
      case Css => cssBuffer
      case Js => jsBuffer
    }

    function Saved(p: Pane): string
      reads this
    {
      match p
      case Html => htmlCode
      case Css => cssCode
      case Js => jsCode
    }

    /** The blue dot on a tab: the buffer differs from the saved code. */
    predicate Dirty(p: Pane)
      reads this
    {
      Buffer(p) != Saved(p)
    }

    /** src/App.tsx: buffers from the link (missing fields empty), saved copies equal, so all clean. */
    constructor FromLink(obj: SharedCode)
      ensures Buffer(Html) == obj.htmlCode.GetOr("")
      ensures Buffer(Css) == obj.cssCode.GetOr("")
      ensures Buffer(Js) == obj.jsCode.GetOr("")
      ensures forall p :: Saved(p) == Buffer(p) && !Dirty(p)
      ensures activeTab == Html && !isVimEnabled && !isTailwindEnabled
    {
      htmlBuffer := obj.htmlCode.GetOr("");
      cssBuffer := obj.cssCode.GetOr("");
      jsBuffer := obj.jsCode.GetOr("");
      htmlCode := htmlBuffer;
      cssCode := cssBuffer;
      jsCode := jsBuffer;
      activeTab := Html;
      isVimEnabled := false;
      isTailwindEnabled := false;
    }

    /** app/page.tsx: everything empty and clean. */
    constructor Blank()
      ensures forall p :: Buffer(p) == "" && Saved(p) == "" && !Dirty(p)
      ensures activeTab == Html && !isVimEnabled && !isTailwindEnabled
    {
      htmlBuffer, cssBuffer, jsBuffer := "", "", "";
      htmlCode, cssCode, jsCode := "", "", "";
      activeTab := Html;
      isVimEnabled := false;
      isTailwindEnabled := false;
    }

    /** The two mount effects reading the stored flags. */
    method LoadFlags(vimValue: Option<string>, tailwindValue: Option<string>)
      modifies this
      ensures isVimEnabled == StoredFlag(vimValue) && isTailwindEnabled == StoredFlag(tailwindValue)
      ensures forall p :: Buffer(p) == old(Buffer(p)) && Saved(p) == old(Saved(p))
      ensures activeTab == old(activeTab)
    {
      if vimValue == Some("true") {
        isVimEnabled := true;
      } else {
        isVimEnabled := false;
      }
      if tailwindValue == Some("true") {
        isTailwindEnabled := true;
      } else {
        isTailwindEnabled := false;
      }
    }

    /** The Vim switch; returns the string stored under "isVimEnabled". */
    method SetVim(isChecked: bool) returns (stored: string)
      modifies this
      ensures isVimEnabled == isChecked && StoredFlag(Some(stored)) == isChecked
      ensures isTailwindEnabled == old(isTailwindEnabled) && activeTab == old(activeTab)
      ensures forall p :: Buffer(p) == old(Buffer(p)) && Saved(p) == old(Saved(p))
    {
      isVimEnabled := isChecked;
      stored := FlagText(isChecked);
    }

    /** The Tailwind switch; returns the string stored under "isTailwindEnabled". */
    method SetTailwind(isChecked: bool) returns (stored: string)
      modifies this
      ensures isTailwindEnabled == isChecked && StoredFlag(Some(stored)) == isChecked
      ensures isVimEnabled == old(isVimEnabled) && activeTab == old(activeTab)
      ensures forall p :: Buffer(p) == old(Buffer(p)) && Saved(p) == old(Saved(p))
    {
      isTailwindEnabled := isChecked;
      stored := FlagText(isChecked);
    }

    /** A pane's `onChange`: only its buffer changes. */
    method Edit(p: Pane, value: string)
      modifies this
      ensures Buffer(p) == value
      ensures forall q :: q != p ==> Buffer(q) == old(Buffer(q))
      ensures forall q :: Saved(q) == old(Saved(q))
      ensures activeTab == old(activeTab)
      ensures isVimEnabled == old(isVimEnabled) && isTailwindEnabled == old(isTailwindEnabled)
    {
      match p
      case Html => htmlBuffer := value;
      case Css => cssBuffer := value;
      case Js => jsBuffer := value;
    }

    /** A tab click (`onValueChange`). */
    method SelectTab(p: Pane)
      modifies this
      ensures activeTab == p
      ensures forall q :: Buffer(q) == old(Buffer(q)) && Saved(q) == old(Saved(q))
      ensures isVimEnabled == old(isVimEnabled) && isTailwindEnabled == old(isTailwindEnabled)
    {
      activeTab := p;
    }

    /**
     * The `onKeyDown` of pane `p`: the save chord copies that pane's buffer
     * to its saved code, making it clean and leaving the other panes as they
     * were; Alt with a digit switches tab.
     */
    method KeyDown(p: Pane, ev: KeyEvent)
      modifies this
      ensures forall q :: Buffer(q) == old(Buffer(q))
      ensures SaveChord(ev) ==> Saved(p) == old(Buffer(p)) && !Dirty(p)
      ensures !SaveChord(ev) ==> Saved(p) == old(Saved(p))
      ensures forall q :: q != p ==> Saved(q) == old(Saved(q)) && (Dirty(q) <==> old(Dirty(q)))
      ensures activeTab == TabShortcut(p, ev).GetOr(old(activeTab))
      ensures isVimEnabled == old(isVimEnabled) && isTailwindEnabled == old(isTailwindEnabled)
    {
      if (ev.ctrlKey || ev.metaKey) && (ev.key == "s" || ev.key == "S") {
        match p
        case Html => htmlCode := htmlBuffer;
        case Css => cssCode := cssBuffer;
        case Js => jsCode := jsBuffer;
      }
      if ev.altKey && ev.key == "1" && p != Html {
        activeTab := Html;
      }
      if ev.altKey && ev.key == "2" && p != Css {
        activeTab := Css;
      }
      if ev.altKey && ev.key == "3" && p != Js {
        activeTab := Js;
      }
    }

    /** The preview shows the saved codes, not the buffers. */
    function SourceDocument(): string
      reads this
    {
      GenerateSourceDoc(htmlCode, cssCode, jsCode, isTailwindEnabled)
    }

    /** The Share button (src/App.tsx): the link's object, or `None` for "Nothing to share.". */
    method Share() returns (link: Option<SharedCode>)
      ensures link == ShareLink(htmlCode, cssCode, jsCode)
    {
      if htmlCode == "" && cssCode == "" && jsCode == "" {
        return None;
      }
      link := Some(SharedCode(Some(htmlCode), Some(cssCode), Some(jsCode)));
    }
  }
}
