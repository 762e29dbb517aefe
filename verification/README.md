# A verified model of the code playground's editor logic

The playground offers three editors:

- a classic HTML/CSS/JavaScript editor, with a shareable and a blank variant;
- a Sandpack (React) project editor, which has a file explorer, file creation, React completions and saving;
- a collaborative editor, which has a draggable divider and a preview frame.

This project models the sequential logic behind them in Dafny and proves what it promises.

## Modules

- `Strings` covers JavaScript `split`, `join`, `filter(Boolean)`, `endsWith` and ASCII `toLowerCase`. `Wrappers` covers optional values.
- `FileTree` covers `organizeFiles`. The flat path list becomes a tree of folders and file leaves in insertion order.
- `FolderList` covers `collectAllFolders` and what the folder listing promises.
- `ExplorerView` covers `renderFileTree`: folders first, then files, each group sorted by name. Expanded folders are followed by their rows.
- `Explorer` covers the `CustomFileExplorer` component: the expanded set, toggling, and deleting with an active-file fallback.
- `AddFile` covers `AddFileButton`: path normalisation, the duplicate check, the extension, the component name and the starter templates.
- `SandpackEditor` covers unsaved-change detection, the save payload, the Ctrl/Cmd+S trigger, the default files and the files Sandpack shows once it merges them with its React template.
- `Completions` covers the React snippet catalogue and its case-insensitive prefix filter.
- `Projects` covers the `create` record for each project type and the `update` patch.
- `ClassicEditor` covers the three-pane buffers, saved codes, dirty flags, save and tab shortcuts, the stored flags and the share link. `SourceDoc` covers `generateSourceDoc`.
- `UrlCodec` covers the URL layer of a share link: `encodeURIComponent`, the `URLSearchParams` lookup of `code` and `decodeURIComponent`.
- `Theme` covers the dark/light rule of `useDarkMode` and the theme buttons.
- `Splitter` covers the divider's resize rule. `CollabEditor` covers pane switching and the HTML mount guard. `Preview` covers the preview frame's `srcDoc`.

The model does not make calls into Sandpack, the browser or the database. An operation returns the calls it would make (`Sandpack.Effect`) or the arguments it would pass.

## Model

| member | source | states |
|---|---|---|
| Strings.SegmentsIgnoreLeadingSlash | src/components/CustomFileExplorer.tsx:33 | Splitting on "/" and dropping empty parts ignores a leading slash, so "/src/App.js" and "src/App.js" land at the same position |
| Strings.JoinSplit | src/components/CustomFileExplorer.tsx:33 | `s.split(sep).join(sep)` gives `s` back for every string |
| Strings.SplitJoin | src/components/CustomFileExplorer.tsx:59 | Joining separator-free names and splitting again gives the names back |
| Strings.JoinInjective | src/components/CustomFileExplorer.tsx:59 | Different name lists join to different paths |
| Strings.SegmentsOfJoin | src/components/CustomFileExplorer.tsx:33 | The segments of a joined folder path are exactly its names |
| FileTree.Insert | src/components/CustomFileExplorer.tsx:36-46 | Defines one insertion: every segment but the last reuses or creates a folder, in record order, and the last writes a file leaf holding the whole path. It is none where a segment on the way is a file, where the source throws |
| FileTree.Organize | src/components/CustomFileExplorer.tsx:29-51 | Defines the tree of all paths, inserted in list order, or none when an insertion fails |
| FileTree.Put | src/components/CustomFileExplorer.tsx:39-43 | Record assignment: an existing key keeps its index and only that value changes. A new key goes last. Other keys keep their index |
| FileTree.OrganizeFiles | src/components/CustomFileExplorer.tsx:29-51 | The loop over the paths builds the tree that `Organize` defines, or fails exactly where the source throws |
| FileTree.InsertPlacesFile | src/components/CustomFileExplorer.tsx:36-46 | After inserting a path, following its segments reaches a file leaf that records the full original path |
| FileTree.InsertKeepsOthers | src/components/CustomFileExplorer.tsx:41-45 | An insertion leaves files elsewhere unchanged and keeps existing folders as folders: a folder is reused, never re-created |
| FileTree.OrganizePlacesEveryFile | src/components/CustomFileExplorer.tsx:32-48 | Every path appears as a file leaf at its segments, holding its original path, unless a later path lands on it or on an ancestor |
| FileTree.FileThenNestedFileThrows | src/components/CustomFileExplorer.tsx:42-45 | "/a" followed by "/a/b" makes the build fail: it descends into a file node |
| FileTree.OrganizeWellFormed | src/components/CustomFileExplorer.tsx:29-51 | Every folder of a built tree has distinct, non-empty, slash-free names |
| FolderList.FolderPaths | src/components/CustomFileExplorer.tsx:54-68 | Defines the listing, depth first in record order: each folder's path followed by the paths under it. Files contribute nothing |
| FolderList.ChildPath | src/components/CustomFileExplorer.tsx:59 | A child path is the bare name under the root and `parent/name` elsewhere |
| FolderList.CollectAllFolders | src/components/CustomFileExplorer.tsx:54-68 | The accumulating recursion returns exactly the `FolderPaths` listing |
| FolderList.ListingIsJoinedSegs | src/components/CustomFileExplorer.tsx:54-68 | Each listed path is the joined name list of a folder, in the order of the independent `FolderSegs` description |
| FolderList.ListsEveryFolder | src/components/CustomFileExplorer.tsx:54-68 | Every folder of the tree is listed, as its names joined by "/" |
| FolderList.ListsOnlyFolders | src/components/CustomFileExplorer.tsx:57-58 | Every listed path names a folder; files contribute nothing |
| FolderList.ListsEachOnce | src/components/CustomFileExplorer.tsx:54-68 | No folder path is listed twice |
| FolderList.ListsRelativePaths | src/components/CustomFileExplorer.tsx:59 | Listed paths are non-empty and have no leading slash |
| FolderList.ListsParentFirst | src/components/CustomFileExplorer.tsx:60-62 | A nested folder's parent path is listed before it |
| ExplorerView.InsertByName | src/components/CustomFileExplorer.tsx:121-122 | Inserting an entry into a level adds exactly that entry |
| ExplorerView.SortByName | src/components/CustomFileExplorer.tsx:121-122 | The sort is a permutation of the entries |
| ExplorerView.SortByNameSorted | src/components/CustomFileExplorer.tsx:121-122 | The sort orders the entries by name, given that `localeCompare` is a total preorder |
| ExplorerView.Folders | src/components/CustomFileExplorer.tsx:116 | The folder filter keeps only folders |
| ExplorerView.Files | src/components/CustomFileExplorer.tsx:117 | The file filter keeps only files |
| ExplorerView.SortedLevel | src/components/CustomFileExplorer.tsx:115-123 | A level's sorted entries are a permutation of its entries |
| ExplorerView.LevelOrder | src/components/CustomFileExplorer.tsx:114-123 | All folders come before all files, each group sorted by name, with nothing lost or repeated |
| ExplorerView.Render | src/components/CustomFileExplorer.tsx:125-189 | Defines the rows of one level in sorted order. A folder row is followed by its own rows one level deeper when its path is expanded. A file row is marked active when its path is the active file |
| ExplorerView.RenderedFoldersListed | src/components/CustomFileExplorer.tsx:168-184 | A folder row's lookup key is listed by `collectAllFolders` for the same directory, and the row is open exactly when that key is expanded |
| Explorer.AllFolders | src/components/CustomFileExplorer.tsx:71 | Defines `allFolders`: "" followed by the folder listing of the built tree, or none when building fails |
| Explorer.AllFoldersAreFolders | src/components/CustomFileExplorer.tsx:71 | `allFolders` holds "" and exactly the folders of the tree, each as joined names |
| Explorer.ToggleFlipsOnly | src/components/CustomFileExplorer.tsx:104-112 | Toggling flips the given path's membership and no other |
| Explorer.ToggleTwice | src/components/CustomFileExplorer.tsx:104-112 | Toggling the same path twice restores the set |
| Explorer.Remaining | src/components/CustomFileExplorer.tsx:95 | The remaining files are exactly the files other than the target |
| Explorer.DeleteEffects | src/components/CustomFileExplorer.tsx:79-102 | Defines the calls of a delete. There are none without a target, and an alert when one file or none is left. Otherwise the target is deleted and, when it was active, the first remaining file is opened |
| Explorer.DeleteWithoutTarget | src/components/CustomFileExplorer.tsx:80 | With no target, or an empty one, nothing happens |
| Explorer.LastFileKept | src/components/CustomFileExplorer.tsx:83-88 | With one file or none, the user is alerted, nothing is deleted, and the target is cleared |
| Explorer.DeleteOpensFallback | src/components/CustomFileExplorer.tsx:90-101 | The target is deleted first. A file is opened only when the target was active, and it is the first other file in key order. The target is cleared |
| Explorer.EveryFolderOpen | src/components/CustomFileExplorer.tsx:195-199 | While every folder is in the expanded set, every rendered folder row is open |
| Explorer.FileExplorer.constructor | src/components/CustomFileExplorer.tsx:70-72 | Mounting expands "" and every folder, with no delete pending |
| Explorer.FileExplorer.FilesChanged | src/components/CustomFileExplorer.tsx:75-77 | On a change of files the expanded set becomes its union with the new folder list, so it never shrinks |
| Explorer.FileExplorer.ToggleFolder | src/components/CustomFileExplorer.tsx:104-112 | The expanded set becomes `Toggled` of the old one; nothing else changes |
| Explorer.FileExplorer.RequestDelete | src/components/CustomFileExplorer.tsx:157-160 | The trash button sets the pending target only |
| Explorer.FileExplorer.CancelDelete | src/components/CustomFileExplorer.tsx:202 | Closing the dialog clears the pending target only |
| Explorer.FileExplorer.HandleDelete | src/components/CustomFileExplorer.tsx:79-102 | Returns the calls of `DeleteEffects` and clears the target except on the no-target return |
| AddFile.Normalize | src/components/AddFileButton.tsx:56 | Defines the path: the name with "/" put in front unless it is already there |
| AddFile.Extension | src/components/AddFileButton.tsx:65 | Defines the extension: the text after the last ".", or "js" when that text is empty |
| AddFile.ComponentName | src/components/AddFileButton.tsx:18-22 | Defines the component name: the last "/" segment once one script extension is removed, or "Component" when that is empty |
| AddFile.DefaultContent | src/components/AddFileButton.tsx:24-50 | Defines the starter text for each extension, with the component name filled in |
| AddFile.CreateOutcome | src/components/AddFileButton.tsx:53-70 | Defines the outcome: nothing for an empty name, a refusal for an existing path, otherwise the new path with its starter text |
| AddFile.NormalizeAddsSlash | src/components/AddFileButton.tsx:56 | The path starts with "/". A slash is added exactly when missing, and normalising twice changes nothing |
| AddFile.LeadingSlashOptional | src/components/AddFileButton.tsx:56 | "x" and "/x" create the same path |
| AddFile.EmptyNameCreatesNothing | src/components/AddFileButton.tsx:54 | An empty name creates and calls nothing |
| AddFile.ExistingPathRefused | src/components/AddFileButton.tsx:59-62 | An existing path is not written or opened; the user is alerted |
| AddFile.NewPathWrittenAndOpened | src/components/AddFileButton.tsx:64-70 | A new path is written with the template for its extension and then opened |
| AddFile.ExtensionAfterLastDot | src/components/AddFileButton.tsx:65 | The extension is the text after the last dot |
| AddFile.TrailingDotIsJs | src/components/AddFileButton.tsx:65 | A trailing dot falls back to "js" |
| AddFile.DotlessPathIsItsOwnExtension | src/components/AddFileButton.tsx:65 | A dot-less path is its own extension, so the new file is empty |
| AddFile.ComponentNameOfScript | src/components/AddFileButton.tsx:18-22 | One .js/.jsx/.ts/.tsx suffix is removed and the last "/" segment is the component name |
| AddFile.ComponentNameKeepsOtherExtension | src/components/AddFileButton.tsx:18-22 | Any other suffix stays in the component name |
| AddFile.BareExtensionIsComponent | src/components/AddFileButton.tsx:22 | A name that is only a script extension after its last slash becomes "Component" |
| AddFile.TemplatesByExtension | src/components/AddFileButton.tsx:24-50 | js/jsx share one template and ts/tsx another; css gets a comment line; other extensions get "". The two templates differ |
| AddFile.NewFileForm.constructor | src/components/AddFileButton.tsx:14-15 | The form starts empty and closed |
| AddFile.NewFileForm.SetOpen | src/components/AddFileButton.tsx:82 | The popover's open state changes; the text stays |
| AddFile.NewFileForm.Type | src/components/AddFileButton.tsx:101 | The text changes; the open state stays |
| AddFile.NewFileForm.CreateFile | src/components/AddFileButton.tsx:53-79 | Returns the outcome's calls. On success the field is emptied and the popover closed; otherwise the form is unchanged |
| SandpackEditor.Changed | src/SandpackEditor.tsx:89-106 | Defines unsaved changes: the current path-to-code map differs from the saved files, which are `{}` when there are none |
| SandpackEditor.SaveRequested | src/SandpackEditor.tsx:64-67 | Defines the save chord: Ctrl or Cmd with a lower-case "s" |
| SandpackEditor.Codes | src/SandpackEditor.tsx:56-58 | The code map has the same paths as Sandpack's files |
| SandpackEditor.HasChanges | src/SandpackEditor.tsx:89-106 | The count check, then the loop with early returns, is true exactly when the current path-to-code map differs from the saved one, which is `{}` without saved files |
| SandpackEditor.SavePayload | src/SandpackEditor.tsx:53-59 | The `forEach` fills a map with the same paths and the same code as Sandpack's files |
| SandpackEditor.HandleSave | src/SandpackEditor.tsx:52-61 | The save passes only `files`, holding the payload |
| SandpackEditor.SaveClearsChanges | src/SandpackEditor.tsx:52-61 | Once the save is stored, the saved files equal the payload and there are no changes; html, css and js are untouched |
| SandpackEditor.SaveChordIsLowerCase | src/SandpackEditor.tsx:65-67 | Ctrl or Cmd with "s" saves; "S", or "s" without a modifier, does not |
| SandpackEditor.InitialFilesFallback | src/SandpackEditor.tsx:28-34 | A project without files opens with only "/App.js"; one with files, even none, opens with exactly those |
| SandpackEditor.Mounted | src/SandpackEditor.tsx:131-140 | Defines Sandpack's files once the provider is mounted with the React template: the template's files, with every project path replaced by the project's code |
| SandpackEditor.MountedCodes | src/SandpackEditor.tsx:131-140 | Sandpack shows every template path and every project path. A project path carries the project's code, and a template-only path keeps the template's code |
| SandpackEditor.OpenedProjectUnchanged | src/SandpackEditor.tsx:89-110 | A project with files opens without changes, and so without a Save button, exactly when it saved every path of the template. Any template path it lacks is an unsaved change from the start |
| SandpackEditor.FilelessProjectStartsChanged | src/SandpackEditor.tsx:91-96 | A project without files starts with changes, whatever the template holds, because the fallback "/App.js" is not saved |
| SandpackEditor.NothingSavedAnythingChanged | src/SandpackEditor.tsx:91-96 | With nothing saved, any current file is a change |
| Completions.MatchingKeepsOffered | src/lib/reactCompletions.ts:263-265 | A snippet is kept exactly when its lower-cased label starts with the lower-cased word |
| Completions.MatchingAppend | src/lib/reactCompletions.ts:254-257 | Filtering a concatenation concatenates the filtered parts, so catalogue order is kept |
| Completions.EmptyWordMatchesAll | src/lib/reactCompletions.ts:263-265 | The empty word matches every snippet |
| Completions.CaseDoesNotMatter | src/lib/reactCompletions.ts:264 | Words that differ only in letter case match the same snippets |
| Completions.NoWordNoResult | src/lib/reactCompletions.ts:261 | Without a word the result is null |
| Completions.EmptyWordNeedsExplicit | src/lib/reactCompletions.ts:261 | An empty word gives null unless the request is explicit |
| Completions.MatchingNonEmpty | src/lib/reactCompletions.ts:267 | The filtered list is non-empty exactly when some snippet is offered |
| Completions.Complete | src/lib/reactCompletions.ts:259-273 | Defines the completion: null without a word, with an empty word unless explicit, or when nothing matches. Otherwise it gives the matching catalogue snippets, starting at the word |
| Completions.CompleteResult | src/lib/reactCompletions.ts:259-273 | There is a result exactly when there is a word that is non-empty or explicitly requested, and some snippet is offered. The result starts at the word, is never empty, holds exactly the offered snippets, and lists attributes before hooks |
| Completions.CompleteInResult | src/lib/reactCompletions.ts:259-273 | The same, for any catalogue split into two parts |
| Projects.Create | convex/projects.ts:23-68 | Defines the inserted record for each project type |
| Projects.CreateClassic | convex/projects.ts:26-63 | A missing or "classic" type gives the default HTML, empty css and js, type "classic" and no files |
| Projects.CreateSandpack | convex/projects.ts:28-61 | A Sandpack project has empty html/css/js, type "sandpack" and exactly /App.js, /index.js and /public/index.html |
| Projects.CreateStatesType | convex/projects.ts:26-63 | Every created record states its type, and only Sandpack records have files |
| Projects.Patch | convex/projects.ts:86-91 | Defines the patch: one entry per supplied argument |
| Projects.ApplyPatch | convex/projects.ts:90 | Defines the patched record: every field in the patch is replaced whole |
| Projects.PatchCarriesSuppliedFields | convex/projects.ts:86-91 | A field is in the patch exactly when its argument is supplied, and holds that argument |
| Projects.EmptyUpdateEmptyPatch | convex/projects.ts:86-91 | An update without arguments patches nothing |
| Projects.UpdateReplacesSuppliedFields | convex/projects.ts:90 | Supplied fields are replaced and omitted ones kept. A files map replaces the stored one whole, with no merge |
| ClassicEditor.StoredFlag | src/App.tsx:50-67 | Defines a stored flag: on exactly when the stored string is "true" |
| ClassicEditor.FlagRoundTrip | src/App.tsx:50-67 | A flag reads as on exactly when the stored string is "true", and a stored switch value reads back as the same flag |
| ClassicEditor.TabShortcut | src/App.tsx:208-218 | Defines the pane that Alt+1/2/3 selects. It is none for any other key and for the focused pane's own digit |
| ClassicEditor.AltDigitSelectsPane | src/App.tsx:208-218 | Alt with a pane's number selects that pane, except in that pane itself, where nothing changes |
| ClassicEditor.OnlyAltDigitsSwitch | src/App.tsx:237-247 | Only Alt with 1, 2 or 3 switches, and never to the focused pane |
| ClassicEditor.SaveChordCases | src/App.tsx:204-207 | Ctrl or Cmd with "s" or "S" saves; a key without a modifier does not |
| ClassicEditor.ShareLink | src/App.tsx:173-185 | Defines what Share puts in the link: none when all three saved codes are empty, otherwise an object holding all three |
| ClassicEditor.ShareRoundTrip | src/App.tsx:173-185 | Share is refused exactly when all saved codes are empty. Otherwise the shared object carries the saved codes |
| ClassicEditor.Playground.FromLink | src/App.tsx:33-47 | Buffers come from the link object, missing fields as "". Saved codes equal the buffers, so every pane is clean |
| ClassicEditor.Playground.Blank | app/page.tsx:32-44 | All buffers and saved codes are empty, so every pane is clean |
| ClassicEditor.Playground.LoadFlags | app/page.tsx:47-64 | The Vim and Tailwind flags are on exactly when their stored string is "true" |
| ClassicEditor.Playground.SetVim | src/App.tsx:118-121 | The Vim switch sets the flag and returns a stored value that reads back as the same flag |
| ClassicEditor.Playground.SetTailwind | src/App.tsx:126-129 | The Tailwind switch sets the flag and returns a stored value that reads back as the same flag |
| ClassicEditor.Playground.Edit | src/App.tsx:202 | Typing changes only that pane's buffer |
| ClassicEditor.Playground.SelectTab | src/App.tsx:87 | A tab click selects that pane; nothing else changes |
| ClassicEditor.Playground.KeyDown | src/App.tsx:203-218 | The save chord copies only this pane's buffer to its saved code, making it clean with the other panes' dirtiness unchanged. Alt+digit switches tab as `TabShortcut` says |
| ClassicEditor.Playground.Share | src/App.tsx:172-185 | The link uses the saved codes, not the buffers, and is `None` when all are empty |
| SourceDoc.GenerateSourceDoc | src/App.tsx:297-318 | Defines the preview document: a head with the CSS in a style element and, when enabled, the Tailwind tag, then a body with the HTML and a script holding the JavaScript |
| SourceDoc.CodesInOrder | src/App.tsx:297-318 | The CSS is inside the style element, then the HTML in the body, then the JavaScript in the closing script element |
| SourceDoc.TailwindTagIffEnabled | app/page.tsx:231-252 | The Tailwind tag appears in the head, after the style element, exactly when enabled |
| SourceDoc.DocLength | src/App.tsx:297-318 | The codes are inserted verbatim: they add exactly their own length |
| Theme.ResolveTheme | src/lib/utils.ts:10-20 | Defines the dark flag: "dark" is dark, "light" is light, anything else follows the system |
| Theme.ExplicitChoiceWins | src/lib/utils.ts:11-15 | A stored "dark" is dark and "light" is light, whatever the system prefers |
| Theme.OtherwiseSystem | src/lib/utils.ts:16-18 | Any other value, or none, follows the system preference |
| Theme.SystemMattersIffNotExplicit | src/lib/utils.ts:10-20 | The result depends on the system preference exactly when no explicit theme is stored |
| Theme.ThemeState.constructor | src/lib/utils.ts:10-20 | The initial `isDark` follows the rule |
| Theme.ThemeState.Reevaluate | src/lib/utils.ts:22-36 | The listener applies the same rule as the initialiser |
| Theme.ThemeState.ChooseSystem | src/App.tsx:136-142 | "System" stores "system" and follows the system preference, keeping the rule |
| Theme.ThemeState.ChooseLight | src/App.tsx:149-152 | "Light" stores "light" and is light, keeping the rule |
| Theme.ThemeState.ChooseDark | src/App.tsx:159-162 | "Dark" stores "dark" and is dark, keeping the rule |
| Splitter.Resize | components/Editor.tsx:64-74 | Defines the resize step. Within [6, W−240] the width moves by `movementX`; otherwise it snaps to W−240 above half the window and to 6 below |
| Splitter.InRangeFollowsMouse | components/LeftPane.tsx:38-39 | In range, the width moves by `movementX` |
| Splitter.OutOfRangeSnaps | components/Editor.tsx:68-71 | Out of range, the width snaps to W−240 above half the window and to 6 otherwise, ignoring the move |
| Splitter.SnapLandsInRange | components/LeftPane.tsx:37-45 | For W ≥ 246 a snap lands in [6, W−240] |
| Splitter.StepOvershootBounded | components/Editor.tsx:66-67 | A step from in range leaves the range by at most the size of the move |
| Splitter.NeverOutTwice | components/LeftPane.tsx:36-46 | For W ≥ 246, after any move, either the width is in range or the next move brings it back |
| Splitter.Divider.constructor | components/LeftPane.tsx:53-55 | The initial width is half the window |
| Splitter.Divider.MouseDown | components/LeftPane.tsx:30-34 | Mouse down attaches the listener and shows the overlay |
| Splitter.Divider.MouseMove | components/Editor.tsx:64-74 | While dragging, the width becomes `Resize` of the old width; otherwise it is unchanged |
| Splitter.Divider.MouseUp | components/LeftPane.tsx:48-51 | Mouse up detaches the listener and hides the overlay |
| CollabEditor.Visible | components/Editor.tsx:138-169 | Defines which pane is shown: the active one, and the HTML pane only once the document text and version are known |
| CollabEditor.OnlyActivePaneVisible | components/Editor.tsx:144-167 | Once the document is loaded, exactly the active pane is visible |
| CollabEditor.HtmlWaitsForDocument | components/Editor.tsx:138 | The HTML editor is not shown until both document text and version are known |
| CollabEditor.EditorPanes.constructor | components/Editor.tsx:31-35 | HTML is the active pane; there is no document yet |
| CollabEditor.EditorPanes.DocumentLoaded | components/Editor.tsx:44-47 | The loaded document and version are recorded; the active pane stays |
| CollabEditor.EditorPanes.SelectTab | components/LeftPane.tsx:85-105 | Each tab button sets exactly that pane as active |
| Preview.SrcDoc | components/RightPane/IFrame.tsx:11 | Defines the frame's document: a style element with the CSS, then the HTML, then a script element with the JavaScript |
| Preview.SrcDocLayout | components/RightPane/IFrame.tsx:11 | The document starts with the style block, the HTML follows directly, and the script block ends it. Its length is the codes' lengths plus 32 |
| Preview.SrcDocInjective | components/RightPane/IFrame.tsx:11 | Given the CSS and JavaScript lengths, the document determines all three codes |
| UrlCodec.Encode | src/App.tsx:181-185 | `encodeURIComponent` writes only unreserved characters and escapes, so the link's query holds no '&', '=', '+' or '#' |
| UrlCodec.FormDecode | src/App.tsx:33-34 | Defines the decoding `URLSearchParams` applies to a value: '+' is a space, a well-formed escape is its character, and anything else stays as it is |
| UrlCodec.DecodeComponent | src/App.tsx:34 | `decodeURIComponent` fails at a '%' without two hexadecimal digits. A result is never longer than the input, and it is as long only when there was no '%'. Text without '%' comes back unchanged |
| UrlCodec.SearchParam | src/App.tsx:33-34 | Defines `get(name)`: the leading '?' is dropped, the query is split at '&', and the first pair whose decoded name matches gives its decoded value |
| UrlCodec.FormDecodeEncode | src/App.tsx:34 | Form decoding undoes `encodeURIComponent` for every ASCII text |
| UrlCodec.SearchParamOfPair | src/App.tsx:187 | A query `?name=value` without '&' or '=' in the value has one pair, and `get(name)` gives its decoded value |
| UrlCodec.SearchParamOfShare | src/App.tsx:181-187 | `get("code")` on a shared link gives the form-decoded encoded text |
| UrlCodec.OpenedTextAsWritten | src/App.tsx:34 | Defines the text the page reads as written: decoded by `get`, then again by `decodeURIComponent` |
| UrlCodec.OpenedText | src/App.tsx:33-34 | Defines the text decoded once, by `get` alone, with "{}" when the parameter is missing |
| UrlCodec.OpenedTextRoundTrip | src/App.tsx:33-34 | Decoding once gives back every shared ASCII text |
| UrlCodec.AsWrittenRoundTripIffNoPercent | src/App.tsx:34 | As written, the page gives back the shared text exactly when it holds no '%' |
| UrlCodec.AsWrittenThrowsOnPercent | src/App.tsx:34 | The shared text `100%` makes the page throw URIError, while a single decoding restores it |
| UrlCodec.AsWrittenDecodesTwice | src/App.tsx:34 | The shared text `%41` comes back as `A` |

## Left out

- The collaborative synchronisation (utils/peerExtension.ts) and its server. They are concurrent, and the document algebra they rely on is not visible. utils/peerExtension.ts is not part of this model.
- JSON encoding of share links: the parsed object (`ClassicEditor.SharedCode`) is the input and the shared object is the output. `UrlCodec` covers the URL layer on the JSON text. The clipboard, toasts and `history.replaceState` are not modelled.
- ClassicEditor.ShareRoundTrip: it states what the shared object carries, not that opening the link restores the codes. As written, the page decodes the parameter twice: `URLSearchParams.get` already decodes it, and `decodeURIComponent` (src/App.tsx:34) decodes it again. Saved code holding '%' therefore throws or comes back altered; see Findings.
- UrlCodec: only ASCII text is modelled. `encodeURIComponent` writes a character at or above 0x80 as several UTF-8 escapes; the decoders here read each escape as the character of its byte value.
- `localStorage` and `matchMedia` are inputs (stored strings, system preference), and the values to store are outputs. Storage events are `Theme.ThemeState.Reevaluate`.
- The Sandpack runtime:
  - `updateFile`, `openFile`, `deleteFile` and `alert` are returned as `Sandpack.Effect` values, not performed.
  - The React template's own files are a parameter of `SandpackEditor.Mounted`; their contents are not fixed here.
  - The `onFileAdded` callback is an opaque notification and is not modelled.
- JavaScript records: integer-like keys, which `Object.keys` lists first, are not modelled, nor `__proto__` and inherited keys. A record is an insertion-ordered list (explorer) or a map (saved files).
- FileTree.OrganizeFiles: modelled on values. Aliasing of the moving `current` cursor into the shared structure is not modelled; each insertion rebuilds the path it walks.
- Explorer.FileExplorer: its methods require a file list that builds a tree. When building throws, `Organize` is `None` and the component crashes while rendering.
- ExplorerView: `localeCompare` is a parameter assumed to be a total preorder; the locale's collation is not modelled. Hover state, styling, indentation and icons are not modelled.
- Completions: CodeMirror's `matchBefore(/\w+/)` is not modelled; the word (or nothing) is an input. Under `\w+` a match is never empty, so the empty-word branch is modelled but unreachable in practice.
- Completions: `toLowerCase` is ASCII lowering, enough for `\w` words and the catalogue's labels.
- Splitter: widths are real numbers rather than floating point, so rounding is not modelled. The `resize ? px : "50%"` style, which shows a zero width as half, is not modelled.
- ClassicEditor: the Vim and language extensions of the editors, the theme classes, and page.tsx's Share and theme buttons (they have no handlers) are not modelled.
- CollabEditor: the socket wiring, the `getDocument` request and the vim checkbox of the collaborative editor are not modelled.
- convex/projects.ts `get` and the project id are not modelled: `db` calls are represented by the record inserted and the patch applied.

## Findings

| source | as written | input that shows it | evidently intended | confidence | as-written member | corrected member |
|---|---|---|---|---|---|---|
| src/App.tsx:34 | The `code` parameter is decoded twice: `URLSearchParams.get` already decodes it, and `decodeURIComponent` decodes the result again | A saved CSS of `100%`. The link carries `100%25`, `get` gives `100%`, and `decodeURIComponent` throws URIError. A saved `%41` comes back as `A` | Decode the parameter once, so that opening a shared link restores exactly the saved codes | not executed | UrlCodec.AsWrittenThrowsOnPercent | UrlCodec.OpenedTextRoundTrip |
