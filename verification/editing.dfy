/** What the editors of both playgrounds share: the three panes and a key press. */
module Editing {

  /** The three code panes (`"html" | "css" | "js"`). */
  datatype Pane = Html | Css | Js

  /** The parts of a `KeyboardEvent` the handlers look at. */
  datatype KeyEvent = KeyEvent(key: string, ctrlKey: bool, metaKey: bool, altKey: bool)
}
