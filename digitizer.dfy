/** The digitizing session: a cursor over the (month, category) grid, a mode
    flag (set the centre, or measure), an undo stack of
    (month, category, previous value) entries, and the edits a left click or
    a toolbar button makes to the project. */
module Digitizer {
  import opened Wrappers
  import opened Project
  import opened Cursor
  import opened Snapshot

  // ---------------------------------------------------------------------
  // Configuration
  // ---------------------------------------------------------------------

  const RightMonths: seq<string> := [
    "1854-04", "1854-05", "1854-06", "1854-07", "1854-08", "1854-09",
    "1854-10", "1854-11", "1854-12", "1855-01", "1855-02", "1855-03"]

  const LeftMonths: seq<string> := [
    "1855-04", "1855-05", "1855-06", "1855-07", "1855-08", "1855-09",
    "1855-10", "1855-11", "1855-12", "1856-01", "1856-02", "1856-03"]

  const Categories: seq<string> := ["preventable_disease", "wounds", "other_causes"]

  /** The months of each diagram the tool knows, by diagram key. */
  const Diagrams: map<string, seq<string>> := map["right" := RightMonths, "left" := LeftMonths]

  /** Each configured diagram has twelve distinct months; there are three distinct categories. */
  lemma ConfigWellFormed()
    ensures forall key :: key in Diagrams ==> |Diagrams[key]| == 12 && NoDup(Diagrams[key])
    ensures |Categories| == 3 && NoDup(Categories)
  {
  }

  /** The project a session starts from. An unknown diagram key is an error.
      A saved snapshot that reads back is used as it is; when there is none,
      or it does not read back, the session starts from an empty grid of the
      diagram's months and the three categories. */
  function StartingProject(imagePath: string, diagramKey: string, saved: Option<Json>): (r: Result<ProjectData>)
    ensures r.Success? <==> diagramKey in Diagrams
    ensures r.Success? ==> Shaped(r.value)
    ensures r.Success? && saved.Some? && DictToProject(saved.value).Success? ==>
              r.value == DictToProject(saved.value).value
    ensures r.Success? && (saved.None? || DictToProject(saved.value).Failure?) ==>
              && WellFormed(r.value) && r.value.center.None? && Done(r.value) == 0
              && r.value.months == Diagrams[diagramKey] && r.value.categories == Categories
  {
    if diagramKey !in Diagrams then Failure("diagram_key must be one of right, left")
    else
      ConfigWellFormed();
      var empty := MakeEmptyProject(imagePath, diagramKey, Diagrams[diagramKey], Categories);
      match saved
      case None => Success(empty)
      case Some(d) =>
        match DictToProject(d)
        case Success(p) => Success(p)
        case Failure(_) => Success(empty)
  }

  // ---------------------------------------------------------------------
  // Session state
  // ---------------------------------------------------------------------

  /** What undo needs to put a cell back: its labels and its previous value. */
  datatype UndoEntry = UndoEntry(month: string, cat: string, prev: Option<Measurement>)

  /** The cursor (i, j) is on the first empty cell in month-major,
      category-minor order; when no cell is empty it is on the last cell. */
  ghost predicate AtFirstUnfilled(p: ProjectData, i: nat, j: nat)
    requires Shaped(p)
  {
    && i < |p.months| && j < |p.categories|
    && if AllFilled(p) then i == |p.months| - 1 && j == |p.categories| - 1
       else
         && Cell(p, i, j).None?
         && forall i': nat, j': nat :: i' < |p.months| && j' < |p.categories| && (i' < i || (i' == i && j' < j)) ==>
              Cell(p, i', j').Some?
  }

  /** The grid is well formed, the cursor (i, j) is on one of its cells and
      every undo entry names a cell of the grid. */
  ghost predicate SessionOk(p: ProjectData, i: nat, j: nat, undoStack: seq<UndoEntry>) {
    && WellFormed(p)
    && i < |p.months| && j < |p.categories|
    && forall e :: e in undoStack ==> HasCell(p, e.month, e.cat)
  }

  class DigitizerApp {
    var project: ProjectData
    var monthI: nat
    var catI: nat
    var settingCenter: bool
    var undoStack: seq<UndoEntry>

    /** The grid is well formed, the cursor is on one of its cells and every
        undo entry names a cell of the grid. */
    ghost predicate Valid()
      reads this
    {
      SessionOk(project, monthI, catI, undoStack)
    }

    /** Start a session on a project: measure mode, nothing to undo, the
        cursor on the first empty cell. */
    constructor (project: ProjectData)
      requires WellFormed(project)
      ensures Valid()
      ensures this.project == project && !settingCenter && undoStack == []
      ensures AtFirstUnfilled(project, monthI, catI)
    {
      this.project := project;
      monthI, catI := 0, 0;
      settingCenter := false;
      undoStack := [];
      new;
      FindFirstUnfilled();
    }

    /** The labels of the cell under the cursor; undo finds the cursor again from them. */
    function CurrentMonthCat(): (r: (string, string))
      reads this
      requires Valid()
      ensures HasCell(project, r.0, r.1)
      ensures IndexOf(project.months, r.0) == monthI && IndexOf(project.categories, r.1) == catI
    {
      IndexOfNoDup(project.months, monthI);
      IndexOfNoDup(project.categories, catI);
      (project.months[monthI], project.categories[catI])
    }

    /** Switch between set-centre mode and measure mode; nothing else changes. */
    method ToggleCenterMode()
      requires Valid()
      modifies this`settingCenter
      ensures Valid()
      ensures settingCenter == !old(settingCenter)
    {
      settingCenter := !settingCenter;
    }

    /** Step to the next cell; at the last cell nothing moves. */
    method NextItem()
      requires Valid()
      modifies this`monthI, this`catI
      ensures Valid()
      ensures (monthI, catI) == Successor(old(monthI), old(catI), |project.months|, |project.categories|)
    {
      ghost var n := |project.categories|;
      if monthI == |project.months| - 1 && catI == |project.categories| - 1 {
        return;
      }
      catI := catI + 1;
      if catI >= |project.categories| {
        catI := 0;
        monthI := monthI + 1;
      }
      assert CellIndex(monthI, catI, n) == CellIndex(old(monthI), old(catI), n) + 1;
      CellAtIndex(monthI, catI, n);
    }

    /** Step to the previous cell; at the first cell nothing moves. */
    method PrevItem()
      requires Valid()
      modifies this`monthI, this`catI
      ensures Valid()
      ensures (monthI, catI) == Predecessor(old(monthI), old(catI), |project.months|, |project.categories|)
    {
      ghost var n := |project.categories|;
      if monthI == 0 && catI == 0 {
        return;
      }
      var c: int := catI - 1;
      if c < 0 {
        catI := |project.categories| - 1;
        monthI := monthI - 1;
      } else {
        catI := c;
      }
      assert CellIndex(monthI, catI, n) + 1 == CellIndex(old(monthI), old(catI), n);
      CellAtIndex(monthI, catI, n);
    }

    /** Put the cursor on the first empty cell, or on the last cell when none is empty. */
    method FindFirstUnfilled()
      requires WellFormed(project)
      modifies this`monthI, this`catI
      ensures AtFirstUnfilled(project, monthI, catI)
    {
      for i := 0 to |project.months|
        invariant forall i': nat, j': nat :: i' < i && j' < |project.categories| ==> Cell(project, i', j').Some?
      {
        for j := 0 to |project.categories|
          invariant forall i': nat, j': nat :: i' < i && j' < |project.categories| ==> Cell(project, i', j').Some?
          invariant forall j': nat :: j' < j ==> Cell(project, i, j').Some?
        {
          if project.data[project.months[i]][project.categories[j]].None? {
            monthI, catI := i, j;
            return;
          }
        }
      }
      AllFilledByIndex(project);
      monthI, catI := |project.months| - 1, |project.categories| - 1;
    }

    /** Move the cursor to the first empty cell (the last cell when none is empty). */
    method JumpToUnfilled()
      requires Valid()
      modifies this`monthI, this`catI
      ensures Valid()
      ensures AtFirstUnfilled(project, monthI, catI)
    {
      FindFirstUnfilled();
    }

    /** Keep the cell under the cursor, with its current value, on the undo
        stack and write v into that cell; the cursor stays. */
    method RecordCurrent(v: Option<Measurement>)
      requires Valid()
      modifies this`project, this`undoStack
      ensures Valid()
      ensures undoStack == old(undoStack) + [UndoEntry(old(project.months[monthI]), old(project.categories[catI]),
                                                       old(Cell(project, monthI, catI)))]
      ensures project == SetCell(old(project), old(project.months[monthI]), old(project.categories[catI]), v)
    {
      var (month, cat) := CurrentMonthCat();
      var stack := undoStack + [UndoEntry(month, cat, project.data[month][cat])];
      var p := SetCell(project, month, cat, v);
      assert SessionOk(p, monthI, catI, stack);
      project, undoStack := p, stack;
    }

    /** A left click at `click`. In set-centre mode it sets the centre and
        leaves that mode. In measure mode without a centre it changes nothing.
        Otherwise it records the previous value of the cell under the cursor,
        stores there the measurement of `click` (its distance from the centre
        by `dist`) and moves to the next cell. */
    method LeftClick(click: Point, dist: (Point, Point) -> real)
      requires Valid()
      modifies this`project, this`settingCenter, this`undoStack, this`monthI, this`catI
      ensures Valid()
      ensures !settingCenter
      ensures if old(settingCenter) then
                && project == old(project).(center := Some(click))
                && undoStack == old(undoStack) && monthI == old(monthI) && catI == old(catI)
              else if old(project.center).None? then
                && project == old(project)
                && undoStack == old(undoStack) && monthI == old(monthI) && catI == old(catI)
              else
                && undoStack == old(undoStack) + [UndoEntry(old(project.months[monthI]), old(project.categories[catI]),
                                                            old(Cell(project, monthI, catI)))]
                && project == SetCell(old(project), old(project.months[monthI]), old(project.categories[catI]),
                                      Some(Measurement(dist(old(project.center.value), click), Some(click), false)))
                && (monthI, catI) == Successor(old(monthI), old(catI), |project.months|, |project.categories|)
    {
      if settingCenter {
        var p := project.(center := Some(click));
        assert SessionOk(p, monthI, catI, undoStack);
        project, settingCenter := p, false;
      } else if project.center.Some? {
        var r := dist(project.center.value, click);
        RecordCurrent(Some(Measurement(r, Some(click), false)));
        NextItem();
      }
    }

    /** Step the cursor back to the cell of the most recent edit and give that
        cell its previous value; with nothing to undo, nothing changes. */
    method Undo()
      requires Valid()
      modifies this`project, this`undoStack, this`monthI, this`catI
      ensures Valid()
      ensures if old(undoStack) == [] then
                project == old(project) && undoStack == [] && monthI == old(monthI) && catI == old(catI)
              else
                var e := old(undoStack[|undoStack| - 1]);
                && undoStack == old(undoStack[..|undoStack| - 1])
                && project == SetCell(old(project), e.month, e.cat, e.prev)
                && monthI == IndexOf(project.months, e.month)
                && catI == IndexOf(project.categories, e.cat)
    {
      if undoStack != [] {
        var e := undoStack[|undoStack| - 1];
        var rest := undoStack[..|undoStack| - 1];
        var p := SetCell(project, e.month, e.cat, e.prev);
        var i := IndexOf(p.months, e.month);
        var j := IndexOf(p.categories, e.cat);
        assert SessionOk(p, i, j, rest) by {
          assert forall e' :: e' in rest ==> e' in undoStack;
        }
        project, undoStack, monthI, catI := p, rest, i, j;
      }
    }

    /** Clear every measurement (the confirmed branch): every cell becomes
        empty, the undo history is dropped and the cursor goes back to the
        first cell; the centre and the labels stay. */
    method ClearAll()
      requires Valid()
      modifies this`project, this`undoStack, this`monthI, this`catI
      ensures Valid()
      ensures project == old(project).(data := EmptyTable(project.months, project.categories))
      ensures undoStack == [] && monthI == 0 && catI == 0
    {
      var p := project;
      for i := 0 to |p.months|
        invariant p == old(project).(data := p.data)
        invariant EmptyBefore(p, i, 0)
      {
        for j := 0 to |p.categories|
          invariant p == old(project).(data := p.data)
          invariant EmptyBefore(p, i, j)
        {
          ClearCellStep(p, i, j);
          p := SetCell(p, p.months[i], p.categories[j], None);
        }
        EmptyBeforeNextRow(p, i);
      }
      AllEmptyIsEmptyTable(p);
      assert SessionOk(p, 0, 0, []);
      project, undoStack, monthI, catI := p, [], 0, 0;
    }

    /** Mark the cell under the cursor as missing and move to the next cell,
        keeping its previous value for undo; without a centre nothing changes. */
    method MarkMissing()
      requires Valid()
      modifies this`project, this`undoStack, this`monthI, this`catI
      ensures Valid()
      ensures old(project.center).None? ==>
                project == old(project) && undoStack == old(undoStack) && monthI == old(monthI) && catI == old(catI)
      ensures old(project.center).Some? ==>
                && undoStack == old(undoStack) + [UndoEntry(old(project.months[monthI]), old(project.categories[catI]),
                                                            old(Cell(project, monthI, catI)))]
                && project == SetCell(old(project), old(project.months[monthI]), old(project.categories[catI]), Some(Missing))
                && (monthI, catI) == Successor(old(monthI), old(catI), |project.months|, |project.categories|)
    {
      if project.center.Some? {
        RecordCurrent(Some(Missing));
        NextItem();
      }
    }

    /** Empty the cell under the cursor so it can be measured again, keeping
        its previous value for undo; the cursor stays. Without a centre, or
        when the cell is already empty, nothing changes. */
    method RemeasureCurrent()
      requires Valid()
      modifies this`project, this`undoStack
      ensures Valid()
      ensures old(project.center).None? || old(Cell(project, monthI, catI)).None? ==>
                project == old(project) && undoStack == old(undoStack)
      ensures old(project.center).Some? && old(Cell(project, monthI, catI)).Some? ==>
                && undoStack == old(undoStack) + [UndoEntry(old(project.months[monthI]), old(project.categories[catI]),
                                                            old(Cell(project, monthI, catI)))]
                && project == SetCell(old(project), old(project.months[monthI]), old(project.categories[catI]), None)
    {
      if project.center.None? {
        return;
      }
      var (month, cat) := CurrentMonthCat();
      var prev := project.data[month][cat];
      if prev.None? {
        return;
      }
      RecordCurrent(None);
    }

    /** Replace the project by the saved snapshot and drop the undo history.
        With no snapshot, or one that does not read back, nothing changes. */
    method Reload(saved: Option<Json>)
      requires Valid()
      requires saved.Some? && DictToProject(saved.value).Success? ==>
                 && DictToProject(saved.value).value.months == project.months
                 && DictToProject(saved.value).value.categories == project.categories
      modifies this`project, this`undoStack
      ensures Valid()
      ensures saved.None? || DictToProject(saved.value).Failure? ==>
                project == old(project) && undoStack == old(undoStack)
      ensures saved.Some? && DictToProject(saved.value).Success? ==>
                project == DictToProject(saved.value).value && undoStack == []
    {
      if saved.None? {
        return;
      }
      match DictToProject(saved.value)
      case Failure(_) =>
      case Success(p) =>
        project := p;
        undoStack := [];
    }
  }

  // ---------------------------------------------------------------------
  // Undo reverses each edit
  // ---------------------------------------------------------------------

  /** A measuring click followed by undo puts back the project, the cursor
      and the undo history exactly as they were. */
  method MeasureThenUndo(app: DigitizerApp, click: Point, dist: (Point, Point) -> real)
    requires app.Valid() && !app.settingCenter && app.project.center.Some?
    modifies app
    ensures app.Valid()
    ensures app.project == old(app.project) && app.undoStack == old(app.undoStack)
    ensures app.monthI == old(app.monthI) && app.catI == old(app.catI)
  {
    ghost var p, i, j := app.project, app.monthI, app.catI;
    app.LeftClick(click, dist);
    app.Undo();
    SetCellRestore(p, p.months[i], p.categories[j], Some(Measurement(dist(p.center.value, click), Some(click), false)));
    IndexOfNoDup(p.months, i);
    IndexOfNoDup(p.categories, j);
  }

  /** Marking a cell missing and then undoing puts everything back. */
  method MissingThenUndo(app: DigitizerApp)
    requires app.Valid() && app.project.center.Some?
    modifies app
    ensures app.Valid()
    ensures app.project == old(app.project) && app.undoStack == old(app.undoStack)
    ensures app.monthI == old(app.monthI) && app.catI == old(app.catI)
  {
    ghost var p, i, j := app.project, app.monthI, app.catI;
    app.MarkMissing();
    app.Undo();
    SetCellRestore(p, p.months[i], p.categories[j], Some(Missing));
    IndexOfNoDup(p.months, i);
    IndexOfNoDup(p.categories, j);
  }

  /** Emptying a filled cell for remeasuring and then undoing puts everything back. */
  method RemeasureThenUndo(app: DigitizerApp)
    requires app.Valid() && app.project.center.Some?
    requires Cell(app.project, app.monthI, app.catI).Some?
    modifies app
    ensures app.Valid()
    ensures app.project == old(app.project) && app.undoStack == old(app.undoStack)
    ensures app.monthI == old(app.monthI) && app.catI == old(app.catI)
  {
    ghost var p, i, j := app.project, app.monthI, app.catI;
    app.RemeasureCurrent();
    app.Undo();
    SetCellRestore(p, p.months[i], p.categories[j], None);
    IndexOfNoDup(p.months, i);
    IndexOfNoDup(p.categories, j);
  }
}
