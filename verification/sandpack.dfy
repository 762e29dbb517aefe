/**
 * The calls the components make into the Sandpack runtime and the browser
 * (`updateFile`, `openFile`, `deleteFile`, `alert`).  The model does not
 * perform them: an operation returns the calls it makes, in order.
 */
module Sandpack {

  datatype Effect =
    | UpdateFile(path: string, code: string)
    | OpenFile(path: string)
    | DeleteFile(path: string)
    | Alert(message: string)

  /** The starter `/App.js` of a Sandpack project, used on creation and as the editor's fallback. */
  const AppJsCode: string :=
    "export default function App() {\n"
    + "  return <h1>Hello world</h1>\n"
    + "}"
}
