/**
 * Creating a file from the explorer's "+" popover (`AddFileButton` in
 * src/components/AddFileButton.tsx): the typed name is made absolute, an
 * existing path is refused, and a new file gets a starter text chosen by
 * its extension.
 */
module AddFile {
  import opened Strings
  import opened Sandpack

  /** `fileName.startsWith("/") ? fileName : `/${fileName}``. */
  function Normalize(fileName: string): string
  {
    if |fileName| > 0 && fileName[0] == '/' then fileName else "/" + fileName
  }

  /** `filePath.split(".").pop() || "js"`. */
  function Extension(filePath: string): string
  {
    var last := LastPart(filePath, '.');
    if last == "" then "js" else last
  }

  /** `name.replace(/\.(js|jsx|ts|tsx)$/, "")`: at most one of the four suffixes can match. */
  function StripScriptExtension(name: string): string
  {
    if EndsWith(name, ".jsx") || EndsWith(name, ".tsx") then name[..|name| - 4]
    else if EndsWith(name, ".js") || EndsWith(name, ".ts") then name[..|name| - 3]
    else name
  }

  /** `componentName`: the base name without a script extension, or "Component". */
  function ComponentName(name: string): string
  {
    var base := LastPart(StripScriptExtension(name), '/');
    if base == "" then "Component" else base
  }

  /** `getDefaultContent(name, ext)`. */
  function DefaultContent(name: string, ext: string): string
  {
    var c := ComponentName(name);
    if ext == "jsx" || ext == "js" then
      "export default function " + c + "() {\n"
      + "  return (\n"
      + "    <div>\n"
      + "      <h2>" + c + "</h2>\n"
      + "    </div>\n"
      + "  );\n"
      + "}"
    else if ext == "tsx" || ext == "ts" then
      "interface " + c + "Props {}\n"
      + "\n"
      + "export default function " + c + "({}: " + c + "Props) {\n"
      + "  return (\n"
      + "    <div>\n"
      + "      <h2>" + c + "</h2>\n"
      + "    </div>\n"
      + "  );\n"
      + "}"
    else if ext == "css" then
      "/* Styles for " + c + " */\n"
    else ""
  }

  datatype Outcome =
    | NoName
    | AlreadyExists(path: string)
    | Created(path: string, content: string)

  /** What `handleCreateFile` decides for the typed name and the existing paths. */
  function CreateOutcome(fileName: string, existing: set<string>): Outcome
  {
    if fileName == "" then NoName
    else
      var filePath := Normalize(fileName);
      if filePath in existing then AlreadyExists(filePath)
      else Created(filePath, DefaultContent(fileName, Extension(filePath)))
  }

  /** The calls made into Sandpack and the browser for an outcome, in order. */
  function OutcomeEffects(o: Outcome): seq<Effect>
  {
    match o
    case NoName => []
    case AlreadyExists(p) => [Alert("File " + p + " already exists")]
    case Created(p, content) => [UpdateFile(p, content), OpenFile(p)]
  }

  // ---------------------------------------------------------------------
  // The path

  /** The path is absolute, a slash is added exactly when missing, and doing it twice changes nothing. */
  lemma NormalizeAddsSlash(fileName: string)
    ensures |Normalize(fileName)| > 0 && Normalize(fileName)[0] == '/'
    ensures |fileName| > 0 && fileName[0] == '/' ==> Normalize(fileName) == fileName
    ensures !(|fileName| > 0 && fileName[0] == '/') ==> Normalize(fileName) == "/" + fileName
    ensures Normalize(Normalize(fileName)) == Normalize(fileName)
  {
  }

  /** A name typed with or without the leading slash creates the same file with the same text. */
  lemma LeadingSlashOptional(fileName: string, existing: set<string>)
    requires fileName != "" && fileName[0] != '/'
    ensures CreateOutcome("/" + fileName, existing) == CreateOutcome(fileName, existing)
  {
    var slashed := "/" + fileName;
    assert Normalize(slashed) == slashed == Normalize(fileName);
    StripKeepsSlash(fileName);
    var stripped := StripScriptExtension(fileName);
    assert "/" + stripped == [] + ['/'] + stripped;
    LastPartAfterSlash(stripped);
  }

  lemma StripKeepsSlash(name: string)
    requires name != ""
    ensures StripScriptExtension("/" + name) == "/" + StripScriptExtension(name)
  {
    var s := "/" + name;
    EndsWithSlashed(name, ".jsx");
    EndsWithSlashed(name, ".tsx");
    EndsWithSlashed(name, ".js");
    EndsWithSlashed(name, ".ts");
    if EndsWith(s, ".jsx") || EndsWith(s, ".tsx") {
      assert s[..|s| - 4] == "/" + name[..|name| - 4];
    } else if EndsWith(s, ".js") || EndsWith(s, ".ts") {
      assert s[..|s| - 3] == "/" + name[..|name| - 3];
    }
  }

  // ---------------------------------------------------------------------
  // Suffix facts

  /** A suffix that fits in `b` is a suffix of `a + b` exactly when it is one of `b`. */
  lemma EndsWithAppend(a: string, b: string, suffix: string)
    requires |suffix| <= |b|
    ensures EndsWith(a + b, suffix) <==> EndsWith(b, suffix)
  {
    assert (a + b)[|a + b| - |suffix|..] == b[|b| - |suffix|..];
  }

  /** One differing character rules a suffix out. */
  lemma NotEndsWith(s: string, suffix: string, k: int)
    requires 0 < k <= |suffix| && k <= |s|
    requires s[|s| - k] != suffix[|suffix| - k]
    ensures !EndsWith(s, suffix)
  {
    if |suffix| <= |s| {
      assert s[|s| - |suffix|..][|suffix| - k] == s[|s| - k];
    }
  }

  lemma EndsWithSlashed(name: string, suffix: string)
    requires suffix != "" && suffix[0] == '.'
    ensures EndsWith("/" + name, suffix) <==> EndsWith(name, suffix)
  {
    if |suffix| <= |name| {
      EndsWithAppend("/", name, suffix);
    } else if |suffix| == |name| + 1 {
      NotEndsWith("/" + name, suffix, |suffix|);
    }
  }

  /** Behind a slash, only the base name decides a slash-free suffix. */
  lemma EndsWithBase(dir: string, base: string, suffix: string)
    requires IsName(base, '/') && '/' !in suffix
    ensures EndsWith(dir + "/" + base, suffix) <==> EndsWith(base, suffix)
  {
    var name := dir + "/" + base;
    if |suffix| <= |base| {
      EndsWithAppend(dir + "/", base, suffix);
    } else {
      assert name[|name| - (|base| + 1)] == '/';
      assert suffix[|suffix| - (|base| + 1)] in suffix;
      NotEndsWith(name, suffix, |base| + 1);
    }
  }

  /** Removing a script extension that was just appended gives the stem back. */
  lemma StripAppended(stem: string, ext: string)
    requires ext in {".js", ".jsx", ".ts", ".tsx"}
    ensures StripScriptExtension(stem + ext) == stem
  {
    if ext == ".js" || ext == ".ts" {
      StripAppendedShort(stem, ext);
    } else {
      StripAppendedLong(stem, ext);
    }
  }

  lemma StripAppendedShort(stem: string, ext: string)
    requires ext == ".js" || ext == ".ts"
    ensures StripScriptExtension(stem + ext) == stem
  {
    var name := stem + ext;
    EndsWithAppend(stem, ext, ext);
    assert name[|name| - 1] == 's';
    NotEndsWith(name, ".jsx", 1);
    NotEndsWith(name, ".tsx", 1);
    assert name[..|name| - 3] == stem;
  }

  lemma StripAppendedLong(stem: string, ext: string)
    requires ext == ".jsx" || ext == ".tsx"
    ensures StripScriptExtension(stem + ext) == stem
  {
    var name := stem + ext;
    EndsWithAppend(stem, ext, ext);
    assert name[..|name| - 4] == stem;
  }

  lemma LastPartAfterSlash(x: string)
    ensures LastPart("/" + x, '/') == LastPart(x, '/')
  {
    var s := "/" + x;
    assert s[0] == '/' && s[1..] == x;
    assert Split(s, '/') == [""] + Split(x, '/');
  }

  /** An existing path is never overwritten or opened: the user is told instead. */
  lemma ExistingPathRefused(fileName: string, existing: set<string>)
    requires fileName != "" && Normalize(fileName) in existing
    ensures OutcomeEffects(CreateOutcome(fileName, existing))
      == [Alert("File " + Normalize(fileName) + " already exists")]
  {
  }

  /** An empty name creates nothing and calls nothing. */
  lemma EmptyNameCreatesNothing(existing: set<string>)
    ensures CreateOutcome("", existing) == NoName
    ensures OutcomeEffects(CreateOutcome("", existing)) == []
  {
  }

  /** A new path is written with its starter text and then opened. */
  lemma NewPathWrittenAndOpened(fileName: string, existing: set<string>)
    requires fileName != "" && Normalize(fileName) !in existing
    ensures var p := Normalize(fileName);
      OutcomeEffects(CreateOutcome(fileName, existing))
        == [UpdateFile(p, DefaultContent(fileName, Extension(p))), OpenFile(p)]
  {
  }

  // ---------------------------------------------------------------------
  // The extension

  /** The extension is the text after the last dot. */
  lemma ExtensionAfterLastDot(stem: string, ext: string)
    requires ext != "" && '.' !in ext
    ensures Extension(stem + "." + ext) == ext
  {
    LastPartAfter(stem, ext, '.');
  }

  /** A trailing dot falls back to "js". */
  lemma TrailingDotIsJs(stem: string)
    ensures Extension(stem + ".") == "js"
  {
    assert stem + "." == stem + ['.'] + "";
    LastPartAfter(stem, "", '.');
  }

  /** A path without a dot is its own extension, so it gets no starter text. */
  lemma DotlessPathIsItsOwnExtension(fileName: string, existing: set<string>)
    requires fileName != "" && '.' !in fileName && Normalize(fileName) !in existing
    ensures Extension(Normalize(fileName)) == Normalize(fileName)
    ensures CreateOutcome(fileName, existing) == Created(Normalize(fileName), "")
  {
    var p := Normalize(fileName);
    assert '.' !in p;
    LastPartWhole(p, '.');
    assert p[0] == '/';
  }

  // ---------------------------------------------------------------------
  // The component name

  /** The component name is the base name with one script extension removed. */
  lemma ComponentNameOfScript(dir: string, base: string, ext: string)
    requires IsName(base, '/')
    requires ext in {".js", ".jsx", ".ts", ".tsx"}
    ensures ComponentName(dir + "/" + base + ext) == base
  {
    StripAppended(dir + "/" + base, ext);
    assert dir + "/" + base == dir + ['/'] + base;
    LastPartAfter(dir, base, '/');
  }

  /** Any other extension is kept in the component name. */
  lemma ComponentNameKeepsOtherExtension(dir: string, base: string)
    requires IsName(base, '/')
    requires !EndsWith(base, ".js") && !EndsWith(base, ".jsx") && !EndsWith(base, ".ts") && !EndsWith(base, ".tsx")
    ensures ComponentName(dir + "/" + base) == base
  {
    EndsWithBase(dir, base, ".js");
    EndsWithBase(dir, base, ".jsx");
    EndsWithBase(dir, base, ".ts");
    EndsWithBase(dir, base, ".tsx");
    assert dir + "/" + base == dir + ['/'] + base;
    LastPartAfter(dir, base, '/');
  }

  /** A name that is only a script extension after its last slash is called "Component". */
  lemma BareExtensionIsComponent(dir: string, ext: string)
    requires ext in {".js", ".jsx", ".ts", ".tsx"}
    ensures ComponentName(dir + "/" + ext) == "Component"
  {
    StripAppended(dir + "/", ext);
    assert dir + "/" == dir + ['/'] + "";
    LastPartAfter(dir, "", '/');
  }

  // ---------------------------------------------------------------------
  // The starter text

  /** .js and .jsx share one template, .ts and .tsx another; .css gets a comment; the rest nothing. */
  lemma TemplatesByExtension(name: string, ext: string)
    ensures DefaultContent(name, "jsx") == DefaultContent(name, "js")
    ensures DefaultContent(name, "tsx") == DefaultContent(name, "ts")
    ensures DefaultContent(name, "css") == "/* Styles for " + ComponentName(name) + " */\n"
    ensures ext !in {"js", "jsx", "ts", "tsx", "css"} ==> DefaultContent(name, ext) == ""
    ensures DefaultContent(name, "js") != DefaultContent(name, "ts")
  {
    var c := ComponentName(name);
    assert DefaultContent(name, "js")[0] == 'e';
    assert DefaultContent(name, "ts")[0] == 'i';
  }

  // ---------------------------------------------------------------------
  // The popover

  class NewFileForm {
    var fileName: string
    var isOpen: bool

    constructor ()
      ensures fileName == "" && !isOpen
    {
      fileName := "";
      isOpen := false;
    }

    /** `onOpenChange={setIsOpen}`. */
    method SetOpen(open: bool)
      modifies this
      ensures isOpen == open && fileName == old(fileName)
    {
      isOpen := open;
    }

    /** `onChange`: the field's text. */
    method Type(text: string)
      modifies this
      ensures fileName == text && isOpen == old(isOpen)
    {
      fileName := text;
    }

    /**
     * `handleCreateFile` (button click or Enter): on success the form is
     * emptied and the popover closes; otherwise the form is left as it was.
     */
    method CreateFile(existing: set<string>) returns (effects: seq<Effect>)
      modifies this
      ensures effects == OutcomeEffects(CreateOutcome(old(fileName), existing))
      ensures CreateOutcome(old(fileName), existing).Created? ==> fileName == "" && !isOpen
      ensures !CreateOutcome(old(fileName), existing).Created? ==>
        fileName == old(fileName) && isOpen == old(isOpen)
    {
      if fileName == "" {
        return [];
      }
      var filePath := Normalize(fileName);
      if filePath in existing {
        return [Alert("File " + filePath + " already exists")];
      }
      var ext := Extension(filePath);
      var defaultContent := DefaultContent(fileName, ext);
      effects := [UpdateFile(filePath, defaultContent), OpenFile(filePath)];
      fileName := "";
      isOpen := false;
    }
  }
}
