/** The data of one digitizing session: an ordered list of months, an ordered
    list of categories, an optional centre point and a table holding, for each
    (month, category) cell, an optional wedge measurement. */
module Project {
  import opened Wrappers

  /** A pixel position in the cropped image. */
  datatype Point = Point(x: real, y: real)

  /** Either a recorded click (its distance from the centre and the click
      itself) or a "missing" marker (radius 0, no click). */
  datatype Measurement = Measurement(radius: real, click: Option<Point>, isMissing: bool)

  /** The marker that "mark missing" stores in a cell. */
  const Missing := Measurement(0.0, None, true)

  /** One month's cells, keyed by category. */
  type Row = map<string, Option<Measurement>>

  /** All cells, keyed by month and then by category. */
  type Table = map<string, Row>

  datatype ProjectData = ProjectData(
    imagePath: string,
    diagramKey: string,
    center: Option<Point>,
    months: seq<string>,
    categories: seq<string>,
    data: Table)

  /** No label occurs twice. */
  predicate NoDup(s: seq<string>) {
    forall i, j :: 0 <= i < j < |s| ==> s[i] != s[j]
  }

  /** Every (month, category) pair has an entry, and there are no other entries. */
  ghost predicate Shaped(p: ProjectData) {
    && (forall m :: m in p.data <==> m in p.months)
    && (forall m :: m in p.months ==> forall c :: c in p.data[m] <==> c in p.categories)
  }

  /** The shape a running session relies on: a non-empty grid whose labels
      are distinct, so that a label determines its position. */
  ghost predicate WellFormed(p: ProjectData) {
    |p.months| > 0 && |p.categories| > 0 && NoDup(p.months) && NoDup(p.categories) && Shaped(p)
  }

  predicate HasCell(p: ProjectData, m: string, c: string) {
    m in p.data && c in p.data[m]
  }

  /** The cell in month number i and category number j. */
  function Cell(p: ProjectData, i: nat, j: nat): Option<Measurement>
    requires Shaped(p) && i < |p.months| && j < |p.categories|
  {
    p.data[p.months[i]][p.categories[j]]
  }

  /** No cell of the grid is empty. */
  ghost predicate AllFilled(p: ProjectData)
    requires Shaped(p)
  {
    forall m, c :: m in p.months && c in p.categories ==> p.data[m][c].Some?
  }

  /** The position of a label: the first index at which it occurs, as a
      list's `index` gives it. */
  function IndexOf(s: seq<string>, x: string): (r: nat)
    requires x in s
    ensures r < |s| && s[r] == x
    ensures forall k :: 0 <= k < r ==> s[k] != x
  {
    if s[0] == x then 0 else 1 + IndexOf(s[1..], x)
  }

  /** In a list without repeats, the label at index i is found at index i. */
  lemma IndexOfNoDup(s: seq<string>, i: nat)
    requires NoDup(s) && i < |s|
    ensures IndexOf(s, s[i]) == i
  {
  }

  function EmptyTable(months: seq<string>, categories: seq<string>): Table {
    map m | m in months :: map c | c in categories :: None
  }

  /** A fresh project: every (month, category) pair has an entry and that
      entry is empty; the centre is unset. */
  function MakeEmptyProject(imagePath: string, diagramKey: string,
                            months: seq<string>, categories: seq<string>): (p: ProjectData)
    ensures p.imagePath == imagePath && p.diagramKey == diagramKey
    ensures p.months == months && p.categories == categories
    ensures p.center.None?
    ensures Shaped(p)
    ensures forall m, c :: m in months && c in categories ==> p.data[m][c].None?
    ensures Done(p) == 0
  {
    ProjectData(imagePath, diagramKey, None, months, categories, EmptyTable(months, categories))
  }

  /** The project with cell (m, c) replaced by v and nothing else changed. */
  function SetCell(p: ProjectData, m: string, c: string, v: Option<Measurement>): (r: ProjectData)
    requires HasCell(p, m, c)
    ensures r == p.(data := r.data)
    ensures r.data.Keys == p.data.Keys
    ensures forall m' :: m' in p.data ==> r.data[m'].Keys == p.data[m'].Keys
    ensures r.data[m][c] == v
    ensures forall m' :: m' in p.data && m' != m ==> r.data[m'] == p.data[m']
    ensures forall c' :: c' in p.data[m] && c' != c ==> r.data[m][c'] == p.data[m][c']
    ensures Shaped(p) ==> Shaped(r)
    ensures WellFormed(p) ==> WellFormed(r)
  {
    p.(data := p.data[m := p.data[m][c := v]])
  }

  /** Writing back the value a cell held before undoes a write to it. */
  lemma {:induction false} SetCellRestore(p: ProjectData, m: string, c: string, v: Option<Measurement>)
    requires HasCell(p, m, c)
    ensures SetCell(SetCell(p, m, c, v), m, c, p.data[m][c]) == p
  {
    var row := p.data[m];
    var written := p.data[m := row[c := v]];
    assert written[m][c := row[c]] == row;
    assert written[m := row] == p.data;
  }

  /** Every cell before (i, j) in month-major order is empty: the rows before
      month i entirely, and row i up to category j. */
  ghost predicate EmptyBefore(p: ProjectData, i: nat, j: nat) {
    && Shaped(p)
    && (forall i': nat, j': nat :: i' < i && i' < |p.months| && j' < |p.categories| ==> Cell(p, i', j').None?)
    && (forall j': nat :: i < |p.months| && j' < j && j' < |p.categories| ==> Cell(p, i, j').None?)
  }

  /** Emptying cell (i, j) extends the empty prefix by that cell. */
  lemma ClearCellStep(p: ProjectData, i: nat, j: nat)
    requires EmptyBefore(p, i, j) && i < |p.months| && j < |p.categories|
    ensures EmptyBefore(SetCell(p, p.months[i], p.categories[j], None), i, j + 1)
  {
    var q := SetCell(p, p.months[i], p.categories[j], None);
    forall i': nat, j': nat | i' < |p.months| && j' < |p.categories|
      ensures Cell(p, i', j').None? ==> Cell(q, i', j').None?
      ensures i' == i && j' == j ==> Cell(q, i', j').None?
    {
      if p.months[i'] != p.months[i] || p.categories[j'] != p.categories[j] {
        assert Cell(q, i', j') == Cell(p, i', j');
      }
    }
  }

  /** A row emptied up to its last category is a row emptied entirely. */
  lemma EmptyBeforeNextRow(p: ProjectData, i: nat)
    requires EmptyBefore(p, i, |p.categories|)
    ensures EmptyBefore(p, i + 1, 0)
  {
  }

  /** AllFilled, read cell by cell through the positions of the labels. */
  lemma AllFilledByIndex(p: ProjectData)
    requires Shaped(p)
    ensures AllFilled(p) <==>
              forall i: nat, j: nat :: i < |p.months| && j < |p.categories| ==> Cell(p, i, j).Some?
  {
    if forall i: nat, j: nat :: i < |p.months| && j < |p.categories| ==> Cell(p, i, j).Some? {
      forall m, c | m in p.months && c in p.categories
        ensures p.data[m][c].Some?
      {
        var i :| 0 <= i < |p.months| && p.months[i] == m;
        var j :| 0 <= j < |p.categories| && p.categories[j] == c;
        assert Cell(p, i, j).Some?;
      }
    }
  }

  /** A grid whose every cell is empty is the empty table of its labels. */
  lemma {:induction false} AllEmptyIsEmptyTable(p: ProjectData)
    requires Shaped(p)
    requires forall i: nat, j: nat :: i < |p.months| && j < |p.categories| ==> Cell(p, i, j).None?
    ensures p.data == EmptyTable(p.months, p.categories)
  {
    var empty := EmptyTable(p.months, p.categories);
    forall m | m in p.months
      ensures p.data[m] == empty[m]
    {
      forall c | c in p.categories
        ensures p.data[m][c] == None
      {
        var i :| 0 <= i < |p.months| && p.months[i] == m;
        var j :| 0 <= j < |p.categories| && p.categories[j] == c;
        assert Cell(p, i, j).None?;
      }
      assert p.data[m].Keys == empty[m].Keys;
    }
    assert p.data.Keys == empty.Keys;
  }

  /** 1 for a filled cell, 0 for an empty one. */
  function Filled(v: Option<Measurement>): nat {
    if v.Some? then 1 else 0
  }

  /** The number of filled cells among the categories `cats` of one row. */
  function FilledInRow(row: Row, cats: seq<string>): (n: nat)
    requires forall c :: c in cats ==> c in row
    ensures n <= |cats|
    ensures n == |cats| <==> forall c :: c in cats ==> row[c].Some?
    ensures n == 0 <==> forall c :: c in cats ==> row[c].None?
  {
    if cats == [] then 0
    else
      assert forall c :: c in cats <==> c == cats[0] || c in cats[1..];
      Filled(row[cats[0]]) + FilledInRow(row, cats[1..])
  }

  /** The number of filled cells among the months `months` and categories `cats`. */
  function FilledIn(data: Table, months: seq<string>, cats: seq<string>): (n: nat)
    requires forall m :: m in months ==> m in data && forall c :: c in cats ==> c in data[m]
    ensures n <= |months| * |cats|
    ensures n == |months| * |cats| <==> forall m, c :: m in months && c in cats ==> data[m][c].Some?
    ensures n == 0 <==> forall m, c :: m in months && c in cats ==> data[m][c].None?
  {
    if months == [] then 0
    else
      assert forall m :: m in months <==> m == months[0] || m in months[1..];
      var rest := FilledIn(data, months[1..], cats);
      assert |months| * |cats| == |cats| + (|months| - 1) * |cats|;
      FilledInRow(data[months[0]], cats) + rest
  }

  /** The progress count: how many of the months × categories cells are
      filled. It reaches the number of cells exactly when no cell is empty. */
  function Done(p: ProjectData): (n: nat)
    requires Shaped(p)
    ensures n <= |p.months| * |p.categories|
    ensures n == |p.months| * |p.categories| <==> AllFilled(p)
  {
    FilledIn(p.data, p.months, p.categories)
  }

  lemma {:induction false} FilledInRowSet(row: Row, cats: seq<string>, c: string, v: Option<Measurement>)
    requires forall c' :: c' in cats ==> c' in row
    requires c in row && NoDup(cats)
    ensures FilledInRow(row[c := v], cats) + (if c in cats then Filled(row[c]) else 0)
         == FilledInRow(row, cats) + (if c in cats then Filled(v) else 0)
  {
    if cats != [] {
      assert NoDup(cats[1..]);
      assert c in cats <==> c == cats[0] || c in cats[1..];
      assert c == cats[0] ==> c !in cats[1..];
      FilledInRowSet(row, cats[1..], c, v);
    }
  }

  lemma {:induction false} FilledInSet(data: Table, months: seq<string>, cats: seq<string>,
                                       m: string, c: string, v: Option<Measurement>)
    requires forall m' :: m' in months ==> m' in data && forall c' :: c' in cats ==> c' in data[m']
    requires m in data && c in data[m] && NoDup(months) && NoDup(cats)
    ensures FilledIn(data[m := data[m][c := v]], months, cats) + (if m in months && c in cats then Filled(data[m][c]) else 0)
         == FilledIn(data, months, cats) + (if m in months && c in cats then Filled(v) else 0)
  {
    if months != [] {
      var data' := data[m := data[m][c := v]];
      assert NoDup(months[1..]);
      assert m in months <==> m == months[0] || m in months[1..];
      assert m == months[0] ==> m !in months[1..];
      FilledInSet(data, months[1..], cats, m, c, v);
      if m == months[0] {
        FilledInRowSet(data[m], cats, c, v);
      } else {
        assert data'[months[0]] == data[months[0]];
      }
    }
  }

  /** Writing one cell moves the progress count by the change in that cell
      alone: down one if it was filled, up one if it becomes filled. */
  lemma DoneAfterSetCell(p: ProjectData, m: string, c: string, v: Option<Measurement>)
    requires WellFormed(p) && HasCell(p, m, c)
    ensures Done(SetCell(p, m, c, v)) + Filled(p.data[m][c]) == Done(p) + Filled(v)
  {
    FilledInSet(p.data, p.months, p.categories, m, c, v);
  }
}
