# Nightingale rose digitizer: session model

The digitizer is a desktop tool for reading Florence Nightingale's rose
diagrams. The user works through a grid of cells: twelve months times
three causes of death. In each cell they click the outer edge of the
wedge, and the tool records the click's distance from the centre of the
rose. This project models that session as a state machine and proves its
properties in Dafny:

- **Project data** (`project.dfy`, module `Project`). A project holds:
  - the image path and diagram key;
  - an optional centre point;
  - an ordered list of months and an ordered list of categories;
  - a table mapping each (month, category) cell to an optional
    measurement.

  A measurement is either a recorded click (radius plus click point) or a
  "missing" marker (radius 0, no click). `SetCell` writes one cell and
  states that nothing else changes. `Done` is the progress count shown in
  the header.
- **Cursor order** (`cursor.dfy`, module `Cursor`). The cells are numbered
  in month-major, category-minor order. `Successor` and `Predecessor` are
  defined on that numbering. They are independent of how the session
  actually steps its cursor.
- **Snapshot** (`snapshot.dfy`, module `Snapshot`). This is the nested
  dictionary a project is saved as (`project_to_dict`), and the parser
  that reads it back (`dict_to_project`). A missing key or a value of the
  wrong kind is a `Failure`. The round trip is proved.
- **Session** (`digitizer.dfy`, module `Digitizer`). The class
  `DigitizerApp` has these fields:
  - the project;
  - the cursor (`monthI`, `catI`);
  - the set-centre flag;
  - the undo stack.

  Its methods change those fields in place. Each method states the new
  state in terms of the old one, through `SetCell`, `Successor`,
  `Predecessor` and `IndexOf`. Each operation a user can trigger also
  preserves `Valid()`: the grid is well formed, the cursor is on a cell,
  and every undo entry names a cell. `FindFirstUnfilled`, which the
  constructor runs before `Valid()` holds, needs only a well-formed grid.
  Three client methods prove that a measuring click, a mark-missing or a
  remeasure followed by `undo` restores the project, the cursor and the
  undo stack. Setting the centre and clearing all push no undo entry, as in
  the source: an undo after setting the centre keeps the new centre, and
  clearing all empties the undo stack, so it cannot be undone.

The distance function (`math.hypot` in the source) is a parameter
`dist: (Point, Point) -> real`. No property depends on its value.

## Model

| member | source | states |
|---|---|---|
| Project.MakeEmptyProject | src/app.py:114-125 | the fresh project keeps the given paths and labels, has no centre, has an entry for exactly every (month, category) pair, every entry is empty and the progress count is 0 |
| Project.SetCell | src/app.py:529-531 | writing one cell sets that cell to the value, leaves every other cell, label, path and the centre unchanged, and keeps the grid's shape and well-formedness |
| Project.SetCellRestore | src/app.py:614-615 | writing a cell's previous value back after a write gives the original project |
| Project.IndexOf | src/app.py:616-617 | `list.index`: the result is a position holding the label and no earlier position holds it |
| Project.IndexOfNoDup | src/app.py:616-617 | in a list without repeats, the label at position i is found at position i |
| Project.AllFilledByIndex | src/app.py:664-672 | "no cell is empty", read label by label, is the same as reading it position by position |
| Project.AllEmptyIsEmptyTable | src/app.py:643-645 | once every cell of a shaped grid is empty, its table is the empty table of its labels |
| Project.ClearCellStep | src/app.py:643-645 | emptying the next cell in month-major order extends the empty prefix of the grid by that cell |
| Project.EmptyBeforeNextRow | src/app.py:643-645 | a month emptied up to its last category means every earlier month is emptied too |
| Project.FilledInRow | src/app.py:868-871 | the count of filled cells in a month is at most the number of categories; it equals that number exactly when all are filled, and is 0 exactly when all are empty |
| Project.FilledIn | src/app.py:868-871 | the same at table level, against months × categories |
| Project.Done | src/app.py:868-872 | the progress count never exceeds the number of cells, and equals it exactly when no cell is empty |
| Project.FilledInRowSet | src/app.py:868-871 | writing one cell of a month changes that month's count only by the change in that cell |
| Project.FilledInSet | src/app.py:868-871 | writing one cell of the table changes the table's count only by the change in that cell |
| Project.DoneAfterSetCell | src/app.py:868-872 | after a cell write, the count drops by one if the old value was filled and rises by one if the new value is filled |
| Cursor.CellIndexOrder | src/app.py:589-598 | the cell numbering is one-to-one and follows month-major, category-minor order |
| Cursor.Successor | src/app.py:589-598 | the next cell is on the grid; it is the same cell at the last cell and the next position everywhere else |
| Cursor.Predecessor | src/app.py:600-609 | the previous cell is on the grid; it is the same cell at (0, 0) and the previous position everywhere else |
| Cursor.PredecessorOfSuccessor | src/app.py:589-609 | stepping back after stepping forward returns to the starting cell, except at the last cell |
| Cursor.SuccessorOfPredecessor | src/app.py:589-609 | stepping forward after stepping back returns to the starting cell, except at (0, 0) |
| Snapshot.CellToJson | src/app.py:153-161 | an empty cell is written as null; a measurement as a dictionary of exactly `radius_px`, `click_xy` and `is_missing`, holding its radius and flag, with a null `click_xy` exactly when it has no click and otherwise the click's two coordinates |
| Snapshot.ProjectToDict | src/app.py:141-162 | the saved dictionary has exactly the six keys, holds the paths as strings, has a null centre exactly when the project has none and otherwise the centre's two coordinates, and its `data` has one entry per month, each with one entry per category |
| Snapshot.Lookup | src/app.py:164-170 | `d[key]` succeeds exactly when d is a dictionary holding the key, and then gives its value |
| Snapshot.AsNumber | src/app.py:182-184 | a number is read as itself, and anything else fails |
| Snapshot.AsString | src/app.py:166-167 | a string is read as itself, and anything else fails |
| Snapshot.AsLabels | src/app.py:169-170 | a list of strings is read as the labels it lists, and anything else fails |
| Snapshot.ParseCenter | src/app.py:168 | a false-like centre is no centre, and a centre that is read back is the pair that was written |
| Snapshot.ParseClick | src/app.py:180-182 | null is no click, and a list starting with two numbers is the click at those coordinates |
| Snapshot.ParseMissing | src/app.py:186 | the missing flag is read exactly when it is a boolean |
| Snapshot.ParseCell | src/app.py:176-187 | null is an empty cell; a measurement that is read has the saved `radius_px`, has no click exactly when `click_xy` is absent or null, and is missing exactly when `is_missing` is present and true; a dictionary with only a numeric `radius_px` reads as that radius with no click and not missing |
| Snapshot.ParseRow | src/app.py:175-187 | a month that is read has an entry for exactly the listed categories |
| Snapshot.ParseTable | src/app.py:173-187 | a table that is read has exactly the listed months, each with exactly the listed categories |
| Snapshot.DictToProject | src/app.py:164-188 | a project that is read has exactly one entry per (month, category) pair |
| Snapshot.CellRoundTrip | src/app.py:153-161 | a saved cell reads back as the same cell: empty, or the same radius, click and missing flag |
| Snapshot.LabelsRoundTrip | src/app.py:146-147 | a saved label list reads back as the same list |
| Snapshot.RowRoundTrip | src/app.py:175-187 | reading a month's saved cells gives back that month's cells |
| Snapshot.TableRoundTrip | src/app.py:173-187 | reading the saved table over a list of months gives back those months' cells |
| Snapshot.TableRebuilt | src/app.py:173-187 | reading the saved table over the project's own months gives back its table |
| Snapshot.SnapshotRoundTrip | src/app.py:141-188 | saving a project and reading it back gives the same project: paths, labels, centre and every cell |
| Digitizer.ConfigWellFormed | src/app.py:20-40 | each configured diagram has twelve distinct months, and there are three distinct categories |
| Digitizer.StartingProject | src/app.py:212-247 | an unknown diagram key is an error; a saved snapshot that reads back is used as it is; otherwise the project is an empty, well-formed grid of the diagram's months and the three categories, with no centre |
| Digitizer.DigitizerApp.constructor | src/app.py:209-248 | a new session is in measure mode with nothing to undo, and its cursor is on the first empty cell |
| Digitizer.DigitizerApp.CurrentMonthCat | src/app.py:467-468 | the labels under the cursor name a cell, and looking those labels up gives back the cursor |
| Digitizer.DigitizerApp.ToggleCenterMode | src/app.py:470-473 | the set-centre flag flips and nothing else changes |
| Digitizer.DigitizerApp.NextItem | src/app.py:589-598 | the cursor moves to `Successor` of where it was: stays at the last cell, otherwise goes to the next cell in month-major order |
| Digitizer.DigitizerApp.PrevItem | src/app.py:600-609 | the cursor moves to `Predecessor` of where it was: stays at (0, 0), otherwise goes to the previous cell |
| Digitizer.DigitizerApp.FindFirstUnfilled | src/app.py:664-672 | the cursor lands on an empty cell and every earlier cell is filled; when no cell is empty it lands on the last cell |
| Digitizer.DigitizerApp.JumpToUnfilled | src/app.py:674-678 | the same placement, keeping the session valid |
| Digitizer.DigitizerApp.RecordCurrent | src/app.py:526-531 | the cell under the cursor and its previous value are pushed on the undo stack, and only that cell receives the new value |
| Digitizer.DigitizerApp.LeftClick | src/app.py:475-543 | in set-centre mode: the centre becomes the click and the mode ends. In measure mode without a centre: nothing changes. Otherwise: the previous value is pushed, only the current cell becomes the measurement `(dist(centre, click), click, not missing)`, and the cursor moves to the successor cell |
| Digitizer.DigitizerApp.Undo | src/app.py:611-630 | with an empty stack nothing changes; otherwise the top entry is popped, its cell gets its previous value back, and the cursor moves to that cell |
| Digitizer.DigitizerApp.ClearAll | src/app.py:632-662 | every cell becomes empty and the paths, labels and centre stay; the undo stack is emptied and the cursor goes to (0, 0) |
| Digitizer.DigitizerApp.MarkMissing | src/app.py:680-701 | without a centre nothing changes; otherwise the previous value is pushed, only the current cell becomes the missing marker, and the cursor moves to the successor cell |
| Digitizer.DigitizerApp.RemeasureCurrent | src/app.py:703-732 | with no centre or an empty cell nothing changes; otherwise the previous value is pushed, only the current cell is emptied, and the cursor stays |
| Digitizer.DigitizerApp.Reload | src/app.py:742-751 | a snapshot that reads back replaces the project and empties the undo stack |
| Digitizer.MeasureThenUndo | src/app.py:611-617 | a measuring click followed by undo restores the project, the cursor and the undo stack |
| Digitizer.MissingThenUndo | src/app.py:611-617 | marking a cell missing followed by undo restores the project, the cursor and the undo stack |
| Digitizer.RemeasureThenUndo | src/app.py:611-617 | emptying a filled cell for remeasuring followed by undo restores the project, the cursor and the undo stack |

## Left out

- GUI construction and drawing are not modelled. This covers the theme, header, sidebar and toolbar widgets, overlays, the preview point and line, `on_move`, the header and status text, and `progress_bar`. The `preview_hidden` resets inside the edit methods are also left out. None of these affects the project, the cursor or the undo stack.
- The right-click preview toggle in `on_click` is not modelled: it only shows or hides the preview.
- The `inaxes`, `processing_click` and toolbar zoom/pan guards are not modelled. `LeftClick` takes a left click at a point in the image as its input.
- `on_key` is not modelled. It only forwards key presses to `Undo`, `MarkMissing`, `NextItem` and `PrevItem`.
- File I/O is not modelled. This covers `safe_write_json`, `save`, reading the progress file, and `export_csv`. The saved snapshot is the in-memory `ProjectToDict` value. `StartingProject` and `Reload` receive the loaded file as an `Option<Json>`: `None` means there is no file.
- The value of `dist` is not modelled. `math.hypot` is floating-point, so the model takes `dist` as a parameter and no property depends on it.
- `crop_image_by_frac` and the image loading are not modelled: they are PIL pixel operations.
- The `clear_all` confirmation dialog is not modelled. `ClearAll` is the confirmed branch.
- `src/plot-rose.py` is not part of this model. It is a pandas and matplotlib plotting script.
- Digitizer.DigitizerApp.Reload: requires that a snapshot which reads back has the same months and categories as the current project. The source does not reset the cursor on reload, so a snapshot with a smaller grid would leave the cursor off the grid. The source also lets an unreadable file raise; the model leaves the session unchanged in that case.
- Digitizer.DigitizerApp.constructor: requires a well-formed project, meaning non-empty, duplicate-free labels and a full grid. The source also accepts a saved snapshot with empty or repeated labels, and a later `current_month_cat` would then fail or misplace the cursor.
- Snapshot.DictToProject: accepts only the kinds of value that `project_to_dict` writes. The source stores `image_path`, `diagram_key` and `is_missing` without any conversion, so it accepts any value there. It also stores `months` and `categories` unconverted, and then accepts any iterable of hashable values there, because the table read loops over them. It applies `tuple` and `float` only to the centre, the click and the radius. Every dictionary that `project_to_dict` writes is in the accepted set. The per-reader lines below say what each reader leaves out.
- Snapshot.AsNumber: reads only a number. Python's `float` also accepts booleans and numeric strings for `radius_px` and the click coordinates.
- Snapshot.AsString: reads only a string. The source stores `image_path` and `diagram_key` unconverted, so any value, `null` included, loads.
- Snapshot.AsLabels: reads only a list of strings. The source stores `months` and `categories` unconverted, and any iterable of hashable values then drives the table read.
- Snapshot.ParseCenter: reads a true-like centre only when it is a pair of numbers. Python's `tuple` accepts any true-like iterable of any length and with entries of any kind.
- Snapshot.ParseClick: reads a non-null click only when it is a list whose first two entries are numbers. The source applies `float` to the first two entries of any indexable value, numeric strings included.
- Snapshot.ParseMissing: reads only a boolean. The source keeps any value of `is_missing` unconverted, such as `1` or a string.
- Snapshot.ParseCell: the source evaluates the click before `radius_px`. When both are malformed, the model reports the click error, as the source does, but error messages are only strings here.
- Python floats (radii, click coordinates, the centre) are modelled as `real`, so float rounding is not modelled. No modelled behaviour depends on it: the snapshot stores the values as written, and a pair of coordinates is always true-like.
- The `ProjectData` object is a value held in a field, so aliasing of the project object across owners is not modelled.
