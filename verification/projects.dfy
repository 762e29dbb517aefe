/**
 * Project records in the Convex database (convex/projects.ts, with the
 * fields of convex/schema.ts): what `create` inserts for each project type
 * and what `update` patches.
 *
 * `db.insert` and `db.patch` are not modelled as calls: `Create` is the
 * inserted record, `Patch` is the object handed to `db.patch`, and
 * `ApplyPatch` is the shallow merge the database performs with it.
 */
module Projects {
  import opened Wrappers
  import opened Sandpack

  datatype ProjectType = Classic | SandpackProject

  /** A stored project; `files` maps a path to its code (`{ code }`). */
  datatype Project = Project(
    html: string,
    css: string,
    js: string,
    files: Option<map<string, string>>,
    kind: Option<ProjectType>)

  /** The HTML a new classic project starts with. */
  const DefaultHtml: string :=
    "<div class=\"h-screen flex justify-center items-center\">\n"
    + "  <div class=\"bg-white rounded-2xl shadow-xl border border-gray-100 p-8 max-w-md w-full transform hover:scale-105 transition-transform duration-300\">\n"
    + "    <div class=\"flex items-center justify-center w-16 h-16 bg-gradient-to-br from-blue-500 to-purple-600 rounded-xl mb-6 mx-auto\">\n"
    + "      <svg class=\"w-8 h-8 text-white\" fill=\"none\" stroke=\"currentColor\" viewBox=\"0 0 24 24\">\n"
    + "        <path stroke-linecap=\"round\" stroke-linejoin=\"round\" stroke-width=\"2\" d=\"M8 9l3 3-3 3m5 0h3M5 20h14a2 2 0 002-2V6a2 2 0 00-2-2H5a2 2 0 00-2 2v12a2 2 0 002 2z\"></path>\n"
    + "      </svg>\n"
    + "    </div>\n"
    + "\n"
    + "    <h2 class=\"text-2xl font-bold text-gray-900 text-center mb-4\">Execute</h2>\n"
    + "\n"
    + "    <p class=\"text-gray-600 text-center leading-relaxed\">\n"
    + "      A quick way to test some HTML/CSS/JS code without scaffolding a new project locally.\n"
    + "    </p>\n"
    + "\n"
    + "    <div class=\"w-12 h-1 bg-gradient-to-r from-blue-500 to-purple-600 rounded-full mx-auto mt-6\"></div>\n"
    + "  </div>\n"
    + "</div>\n"

  const IndexJsCode: string :=
    "import React from \"react\";\n"
    + "import ReactDOM from \"react-dom/client\";\n"
    + "import App from \"./App\";\n"
    + "\n"
    + "const root = ReactDOM.createRoot(document.getElementById(\"root\"));\n"
    + "root.render(<App />);"

  const IndexHtmlCode: string :=
    "<!DOCTYPE html>\n"
    + "<html lang=\"en\">\n"
    + "<head>\n"
    + "  <meta charset=\"UTF-8\">\n"
    + "  <meta name=\"viewport\" content=\"width=device-width, initial-scale=1.0\">\n"
    + "  <title>React App</title>\n"
    + "</head>\n"
    + "<body>\n"
    + "  <div id=\"root\"></div>\n"
    + "</body>\n"
    + "</html>"

  /** The files a new Sandpack project starts with. */
  const StarterFiles: map<string, string> :=
    map["/App.js" := AppJsCode, "/index.js" := IndexJsCode, "/public/index.html" := IndexHtmlCode]

  /** `create`: the record inserted for the requested type, "classic" when none is given. */
  function Create(kind: Option<ProjectType>): Project
  {
    var t := kind.GetOr(Classic);
    if t == SandpackProject then Project("", "", "", Some(StarterFiles), Some(SandpackProject))
    else Project(DefaultHtml, "", "", None, Some(Classic))
  }

  lemma CreateClassic(kind: Option<ProjectType>)
    requires kind != Some(SandpackProject)
    ensures var p := Create(kind);
      p == Project(DefaultHtml, "", "", None, Some(Classic)) && p.files.None?
  {
  }

  /** A Sandpack project has empty html/css/js and exactly the three starter files. */
  lemma CreateSandpack()
    ensures var p := Create(Some(SandpackProject));
      && p.html == "" && p.css == "" && p.js == ""
      && p.kind == Some(SandpackProject)
      && p.files.Some?
      && p.files.value.Keys == {"/App.js", "/index.js", "/public/index.html"}
      && p.files.value["/App.js"] == AppJsCode
  {
  }

  /** Every created record states its type, and only a Sandpack record has files. */
  lemma CreateStatesType(kind: Option<ProjectType>)
    ensures Create(kind).kind == Some(kind.GetOr(Classic))
    ensures Create(kind).files.Some? <==> kind == Some(SandpackProject)
  {
  }

  // ---------------------------------------------------------------------
  // update

  /** `update`'s optional arguments (the project id is left aside). */
  datatype UpdateArgs = UpdateArgs(
    html: Option<string>,
    css: Option<string>,
    js: Option<string>,
    files: Option<map<string, string>>)

  datatype Field = HtmlField | CssField | JsField | FilesField

  datatype Value = Text(text: string) | FileMap(entries: map<string, string>)

  /** The object handed to `db.patch`: one key per supplied argument. */
  function Patch(args: UpdateArgs): map<Field, Value>
  {
    var h := if args.html.Some? then map[HtmlField := Text(args.html.value)] else map[];
    var c := if args.css.Some? then map[CssField := Text(args.css.value)] else map[];
    var j := if args.js.Some? then map[JsField := Text(args.js.value)] else map[];
    var f := if args.files.Some? then map[FilesField := FileMap(args.files.value)] else map[];
    h + c + j + f
  }

  /** A field is patched exactly when its argument is supplied, and with that argument's value. */
  lemma PatchCarriesSuppliedFields(args: UpdateArgs)
    ensures HtmlField in Patch(args) <==> args.html.Some?
    ensures CssField in Patch(args) <==> args.css.Some?
    ensures JsField in Patch(args) <==> args.js.Some?
    ensures FilesField in Patch(args) <==> args.files.Some?
    ensures args.html.Some? ==> Patch(args)[HtmlField] == Text(args.html.value)
    ensures args.css.Some? ==> Patch(args)[CssField] == Text(args.css.value)
    ensures args.js.Some? ==> Patch(args)[JsField] == Text(args.js.value)
    ensures args.files.Some? ==> Patch(args)[FilesField] == FileMap(args.files.value)
  {
  }

  /** An update with no arguments patches nothing. */
  lemma EmptyUpdateEmptyPatch()
    ensures Patch(UpdateArgs(None, None, None, None)) == map[]
  {
  }

  /** `db.patch`: every key of the patch replaces that field; the others stay. */
  function ApplyPatch(p: Project, patch: map<Field, Value>): Project
  {
    Project(
      if HtmlField in patch && patch[HtmlField].Text? then patch[HtmlField].text else p.html,
      if CssField in patch && patch[CssField].Text? then patch[CssField].text else p.css,
      if JsField in patch && patch[JsField].Text? then patch[JsField].text else p.js,
      if FilesField in patch && patch[FilesField].FileMap? then Some(patch[FilesField].entries) else p.files,
      p.kind)
  }

  /**
   * After `update` a supplied field holds the argument, an omitted field is
   * unchanged, and a supplied files map replaces the stored one whole: a
   * stored path the argument lacks is gone.
   */
  lemma UpdateReplacesSuppliedFields(p: Project, args: UpdateArgs)
    ensures var q := ApplyPatch(p, Patch(args));
      && q.html == args.html.GetOr(p.html)
      && q.css == args.css.GetOr(p.css)
      && q.js == args.js.GetOr(p.js)
      && (args.files.Some? ==> q.files == args.files)
      && (args.files.None? ==> q.files == p.files)
      && q.kind == p.kind
  {
    PatchCarriesSuppliedFields(args);
  }
}
