# TBRE Automation part-list engine, in Dafny

This project models the part-list engine of TBRE Automation, a Python tool
that drives Autodesk Inventor over COM. It also models two small pieces of
logic from the desktop front end.

- **Host** (`Host.dfy`). The Inventor application is a store of documents
  keyed by file name. Each document has its document-type code (12290 for a
  part, 12291 for an assembly), its full file name, its property sets, an
  optional mass and centre of mass, and its tree of component occurrences.
  Opening a document is a lookup in that store. The file dialog is a
  parameter `pick`: the name the user would choose, empty when cancelled.
- **Part record** (`Part.dfy`, `src/Part.py`). `Part.__init__` is a
  constructor that assigns the fields step by step.
  - The identity fields are mandatory. When they are missing the source
    raises; `NewPart` returns null.
  - The mass is a soft failure.
  - The centre of mass is scaled by 10 and multiplied by the mass inside one
    `try`. Any failure resets all six axis fields. `Build` is the
    specification function the constructor is proved against.
- **Session and traversal** (`InventorManager.dfy`, `src/InventorManager.py`).
  `InventorManager` is a class with the fields `app`, `doc` and
  `assembly_doc`.
  - `select_document`, `get_part_details` and `disconnect` update those
    fields.
  - `get_part_occurrences` appends fresh `Part` objects to a caller-owned
    list, depth first.
  - Each method is proved against a function of the session: `Select`,
    `WithDetails`, `Walk` and `Visit`.
  - The traversal is proved equal to a flat walk over the part leaves of the
    tree, taken in pre-order. The count, order, splicing and
    no-deduplication properties follow from that.
- **Check-button grid** (`MainWindow.dfy`, `src/MainWindow.py`).
  `CheckButtonFrame` keeps a row/column cursor and two dictionaries.
  - With `max_column >= 1`, the cursor is proved to sit at the closed-form
    cell `(1 + n / max_column, n % max_column)` after `n` options; with
    `max_column < 1` every option gets a row of its own.
  - The button map is proved to hold each option at its cell.
- **File selection** (`InventorAutomationApplication.dfy`,
  `src/InventorAutomationApplication.py`). `select_file` opens a document and
  keeps its typed view. It writes `filename.split("/")[-1]` into a text
  widget.
  - `split` and `join` are modelled with Python's semantics and proved to be
    inverses.
  - The basename is proved to be the text after the last `/`.

Behaviour of the code worth noting:
- A failure while building one part aborts the whole traversal, because
  there is no `try` in `get_part_occurrences`.
- A `Part` is not immutable: `get_part_details` reassigns its fields, and
  `DetailsCanOrphanAxes` shows the axis invariant can be lost: when the set
  has no "Mass" entry, `get_part_details` sets the mass to None and the axes
  stay.
- There is no cycle guard; trees are finite values here.

## Model

| member | source | states |
|---|---|---|
| Host.Open | src/InventorManager.py:100-101 | Opening succeeds exactly when there is an application and it holds the name; the document returned is the stored one. |
| Host.ViewOf | src/InventorManager.py:103-108 | The cast gives the assembly view exactly when the type code is 12291 and the part view otherwise, over the same document. |
| Host.DialogOr | src/InventorManager.py:91-94 | A non-empty name is kept; an empty one is replaced by the dialog's choice. |
| Manager.Select | src/InventorManager.py:81-112 | `select_document` fails on an empty name after the dialog and on an open error, leaving the session unchanged. On success it keeps `app` and sets `doc` to the opened document. `assembly_doc` becomes its view: the assembly view iff the type is 12291. |
| Manager.InventorManager.SelectDocument | src/InventorManager.py:81-112 | The method returns `Select`'s verdict and leaves the object in `Select`'s new state. |
| Manager.PropertyOf | src/InventorManager.py:172-197 | `get_property` returns the stored value iff a view is selected and both the named set and the named property exist. Otherwise it returns None. |
| Manager.WithDetails | src/InventorManager.py:161-167 | `get_part_details` sets part number, part name and mass to `get_property` of the selected view's "Design Tracking Properties" entries "Part Number", "Description" and "Mass"; each is the stored value iff that entry exists, None otherwise. Filename and the six axis fields are kept. |
| Manager.InventorManager.GetPartDetails | src/InventorManager.py:154-167 | The session becomes the selection of the part's own filename. The part's fields become `WithDetails` of their old values under the view then selected. |
| Manager.DetailsCanOrphanAxes | src/InventorManager.py:161-167 | A part built with a mass and axes keeps its axes when `get_part_details` finds no "Mass" property, but loses its mass. |
| Manager.InventorManager.Disconnect | src/InventorManager.py:65-76 | `disconnect` sets `app` to None and changes nothing else. It is a no-op when `app` is already None. |
| Manager.RootOccurrences | src/InventorManager.py:131 | Root occurrences exist exactly for an assembly view, and are that document's occurrences. |
| Manager.Step | src/InventorManager.py:147-150 | A part occurrence selects its document, with the result ignored, then builds a Part from the view selected afterwards. When the open fails the session is unchanged, so the record is built from the previously selected view. |
| Manager.WalkIsFlatWalk | src/InventorManager.py:145-152 | The recursive traversal equals the flat walk over the part leaves of the tree, in depth-first pre-order. |
| Manager.VisitIsFlatWalk | src/InventorManager.py:146-152 | One occurrence: a part is one step, an assembly is the walk over its sub-occurrences, and any other type does nothing. |
| Manager.FlatWalkAppend | src/InventorManager.py:145-150 | Walking two lists of leaves in turn equals walking their concatenation, and nothing runs after an abort. |
| Manager.FlatWalkCount | src/InventorManager.py:145-150 | The walk appends at most one record per leaf, and runs to the end iff it appends one for every leaf. |
| Manager.FlatWalkAt | src/InventorManager.py:145-150 | Record i comes from leaf i. It is built in the session left by the walk over leaves 0..i-1, after selecting leaf i's document. |
| Manager.WalkCount | src/InventorManager.py:145-152 | The traversal appends at most one Part per part occurrence at any depth, and exactly one per part occurrence iff it is not aborted. |
| Manager.WalkStopsAtFailure | src/InventorManager.py:145-150 | Once a Part construction has raised, the later occurrences change neither the records nor the session. |
| Manager.PartLeavesAppend | src/InventorManager.py:145 | The part leaves of a concatenation are the concatenated part leaves, so order is kept. |
| Manager.SubAssemblySpliced | src/InventorManager.py:151-152 | A sub-assembly's parts are spliced, flattened, at that sub-assembly's position. |
| Manager.OtherTypesIgnored | src/InventorManager.py:146-152 | An occurrence whose type is neither 12290 nor 12291 contributes nothing and is not descended into. |
| Manager.RepeatedPlacement | src/InventorManager.py:147-150 | No deduplication: a part placed n times yields n entries. |
| Manager.LeavesAreReachableParts | src/InventorManager.py:145-152 | An occurrence is a part leaf iff its type is 12290 and it is reachable from the roots through assembly occurrences. |
| Manager.ReachableSplit | src/InventorManager.py:145-152 | Reachability in a collection with one more occurrence: reachable before, that occurrence itself, or inside it when it is an assembly. |
| Manager.AppendedTrans | src/InventorManager.py:150 | Two rounds of appending compose: the incoming contents stay an unchanged prefix, and the new Parts describe both batches in order. |
| Manager.InventorManager.GetPartOccurrences | src/InventorManager.py:137-152 | The method returns false iff the traversal is aborted and leaves the session `Walk` gives. The incoming list contents are an unchanged prefix, and fresh Part objects describing exactly the records of `Walk` are appended. |
| Manager.InventorManager.VisitOccurrence | src/InventorManager.py:146-152 | One loop iteration against `Visit`. A part occurrence selects its document and appends one fresh Part, or aborts when Part raises. An assembly recurses into its sub-occurrences, and any other type does nothing. |
| Manager.InventorManager.GetPartsList | src/InventorManager.py:114-135 | After selecting the document, with failure ignored, the result is aborted when no assembly view is selected. Otherwise it is exactly the traversal of its root occurrences from an empty list, as fresh Part objects. |
| Manager.PartsList.Append | src/InventorManager.py:150 | `list.append` adds the Part at the end and keeps the rest. |
| Manager.InventorManager.constructor | src/InventorManager.py:29-45 | A new manager holds the connected application, or None, and no document. |
| Parts.Times | src/Part.py:77-79 | Multiplying a length by the mass succeeds exactly when the mass is a number, and gives the product. |
| Parts.AxesOf | src/Part.py:71-88 | All six axis fields are present or none is. They are present iff the centre of mass was read and the mass is a number. Each axis is 10 times the host coordinate, and each axis-mass is that axis times the mass. |
| Parts.Build | src/Part.py:47-88 | Construction succeeds iff a view is selected and "Part Number" and "Description" exist in "Design Tracking Properties". Identity fields come from the file name and those entries. The mass is present exactly when the host reports it. All six axis fields are present iff mass and centre of mass are both read, scaled by 10, with axis-mass products. |
| Parts.Part.constructor | src/Part.py:47-88 | The step-by-step field assignments of `__init__`, including the reset in the `except` branch, give exactly `Build`'s record. |
| Parts.NewPart | src/Part.py:47-88 | `Part(view)` yields a fresh Part holding `Build`'s record, or raises (null) exactly when `Build` fails. |
| MainWindow.Cell | src/MainWindow.py:184-189 | The n-th option's cell is in row 1 or below. With at least one column, its column is below `max_column` and row-major order gives back n. With no columns, every option gets its own row. |
| MainWindow.AdvanceCell | src/MainWindow.py:213-216 | One counter update moves the cursor from the n-th cell to the (n+1)-th. |
| MainWindow.LayoutCells | src/MainWindow.py:188-189 | An option has a button, at cell k of its last listing k: a later listing overwrites an earlier one. |
| MainWindow.LayoutKeys | src/MainWindow.py:188-189 | The button map's keys are exactly the options. |
| MainWindow.VariablesAllUnchecked | src/MainWindow.py:188-201 | The variable map's keys are exactly the options, each holding the unchecked value 0. |
| MainWindow.ExportOptionsLayout | src/MainWindow.py:81-82 | The four export options with column span 3 are placed at (1,0), (1,1), (1,2) and (2,0). |
| MainWindow.CheckButtonFrame.constructor | src/MainWindow.py:158-189 | After creating the options in order, the cursor is at the closed-form cell of their count. The buttons are `Layout` of the options and the variables are `Variables` of them. |
| MainWindow.CheckButtonFrame.CreateOption | src/MainWindow.py:191-216 | Adds or overwrites `name` in both dictionaries, leaving other keys unchanged, and grids the button at the current cursor. It then advances the cursor. With at least one column the column stays below `max_column`. |
| AutomationApp.Split | src/InventorAutomationApplication.py:167 | `split("/")` yields at least one piece, and no piece holds the separator. |
| AutomationApp.JoinSplit | src/InventorAutomationApplication.py:167 | Joining the pieces of a split with the separator gives back the string. |
| AutomationApp.SplitJoin | src/InventorAutomationApplication.py:167 | Splitting a join of separator-free pieces gives back the pieces. |
| AutomationApp.SplitPiece | src/InventorAutomationApplication.py:167 | A string without the separator splits into itself alone. |
| AutomationApp.SplitAfterSeparator | src/InventorAutomationApplication.py:167 | Appending the separator and a separator-free piece appends that piece to the split. |
| AutomationApp.BasenameIsLastSegment | src/InventorAutomationApplication.py:167 | The text shown is a '/'-free suffix of the name that is the whole name or is preceded by '/': the segment after the last '/'. |
| AutomationApp.BasenameOfPlainName | src/InventorAutomationApplication.py:167 | A name without '/' is shown whole. |
| AutomationApp.BasenameOfPath | src/InventorAutomationApplication.py:167 | A '/'-joined path is shown as its last segment. |
| AutomationApp.TextBox.DeleteAll | src/InventorAutomationApplication.py:166 | `delete("1.0", END)` empties the widget. |
| AutomationApp.TextBox.InsertAtEnd | src/InventorAutomationApplication.py:167 | `insert(END, s)` appends `s`. |
| AutomationApp.InventorAutomationApplication.constructor | src/InventorAutomationApplication.py:30-58 | A new application holds the connected application, or None, and no document. |
| AutomationApp.InventorAutomationApplication.SelectFile | src/InventorAutomationApplication.py:139-171 | Opens the given name, or the dialog's choice, with no empty check. It succeeds iff the host opens it, returning (True, name) with the given name unchanged. On success the view is the assembly view iff the type is 12291, and the text widget, when given, shows the basename. On failure it returns (False, None) and changes neither the session nor the widget. |

## Left out

- COM plumbing: `Dispatch`, `Visible`, `Quit` with `time.sleep`, `WithEvents` and the internals of `Documents.Open` are not modelled. Opening is a lookup in the document store, and `CastTo` always succeeds.
- Manager.InventorManager.Disconnect: `Quit` is taken never to raise, so the `except` branch of `disconnect` (which would keep `app`) is not modelled.
- Manager.Select: a cast or `DocumentType` read that raises after a successful open is not modelled. The source would then have set `doc` but not `assembly_doc`.
- Connecting (`connect_to_inventor`) is not modelled: its outcome is the constructor's `host` parameter. Also left out are `add_file_access_handler`, `create_user_interface`, `run`, and the application's own `disconnect`, which is the same as the manager's.
- The file dialog (`askopenfilename`, `Tk().withdraw()`) is the parameter `pick`. Logging is omitted.
- The file dialog is one fixed answer `pick` per operation: every dialog call inside one operation returns the same `pick`. That covers `get_parts_list`'s own selection and every occurrence with an empty full name in the walk. A user answering each dialog differently is not modelled.
- Reading an occurrence (`DefinitionDocumentType`, `Definition.Document.FullDocumentName`, `SubOccurrences`) is taken never to raise. In the source such a raise would also abort the whole walk, so the model's only cause of an abort is a `Part` construction that raises.
- Manager.InventorManager.GetPartsList: where the source raises, part-way through the walk or with no assembly view selected, the model returns `ok == false` and the Parts appended so far instead of an exception.
- Tk widgets: frames, labels, fonts, grid geometry, the HTML preview and `mainloop` are not modelled. Check buttons are values, each option's IntVar is its initial value 0, and the text widget is its content.
- `round_numbers_in_html` (regular-expression substitution and float formatting) is not modelled.
- src/ProgressBarWindow.py and src/FileAccessEventsHandler.py are not part of this model (UI widget, filesystem check and message box).
- The entry scripts GetPartsList.py and StartInventorAutomationApplication.py, and the `__main__` logging setup, are not part of this model (file and directory I/O). `export_parts_list`, called by GetPartsList.py, is defined nowhere in the code.
- The column projection and HTML or clipboard export are not part of this model; they are not present in the code.
- Masses and coordinates are `real`: floating-point rounding, and the tests' rounded comparisons, are not modelled. A non-numeric mass is the only way a product fails.
- Property values are text or numbers. Other COM variant types are not modelled.
