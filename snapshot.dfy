/** The progress snapshot: the nested dictionary a project is turned into
    before it is written out as JSON, and the parser that turns such a
    dictionary back into a project. */
module Snapshot {
  import opened Wrappers
  import opened Project

  /** A value as the JSON reader and writer see it. */
  datatype Json =
    | JNull
    | JBool(b: bool)
    | JNum(n: real)
    | JStr(s: string)
    | JArr(items: seq<Json>)
    | JObj(fields: map<string, Json>)

  /** Whether a value counts as true in a condition such as `x if x else None`:
      null, false, zero and empty strings, lists and dictionaries do not. */
  predicate Truthy(j: Json) {
    match j
    case JNull => false
    case JBool(b) => b
    case JNum(n) => n != 0.0
    case JStr(s) => s != []
    case JArr(items) => items != []
    case JObj(fields) => fields != map[]
  }

  // ---------------------------------------------------------------------
  // Writing
  // ---------------------------------------------------------------------

  function PointToJson(o: Option<Point>): Json {
    match o
    case None => JNull
    case Some(pt) => JArr([JNum(pt.x), JNum(pt.y)])
  }

  /** An empty cell is written as null; a measurement as a dictionary of
      exactly its radius, its click and its missing flag. */
  function CellToJson(v: Option<Measurement>): (r: Json)
    ensures r.JNull? <==> v.None?
    ensures v.Some? ==> r.JObj? && r.fields.Keys == {"radius_px", "click_xy", "is_missing"}
    ensures v.Some? ==> r.fields["radius_px"] == JNum(v.value.radius) && r.fields["is_missing"] == JBool(v.value.isMissing)
    ensures v.Some? ==> (r.fields["click_xy"].JNull? <==> v.value.click.None?)
    ensures v.Some? && v.value.click.Some? ==>
              r.fields["click_xy"] == JArr([JNum(v.value.click.value.x), JNum(v.value.click.value.y)])
  {
    match v
    case None => JNull
    case Some(meas) =>
      JObj(map[
        "radius_px" := JNum(meas.radius),
        "click_xy" := PointToJson(meas.click),
        "is_missing" := JBool(meas.isMissing)])
  }

  function LabelsToJson(s: seq<string>): Json {
    JArr(seq(|s|, k requires 0 <= k < |s| => JStr(s[k])))
  }

  function TableToJson(p: ProjectData): Json
    requires Shaped(p)
  {
    JObj(map m | m in p.months ::
           JObj(map c | c in p.categories :: CellToJson(p.data[m][c])))
  }

  /** The dictionary that is saved: paths, labels, centre and every cell. */
  function ProjectToDict(p: ProjectData): (r: Json)
    requires Shaped(p)
    ensures r.JObj?
    ensures r.fields.Keys == {"image_path", "diagram_key", "center_xy", "months", "categories", "data"}
    ensures r.fields["image_path"] == JStr(p.imagePath) && r.fields["diagram_key"] == JStr(p.diagramKey)
    ensures r.fields["center_xy"].JNull? <==> p.center.None?
    ensures p.center.Some? ==> r.fields["center_xy"] == JArr([JNum(p.center.value.x), JNum(p.center.value.y)])
    ensures r.fields["data"].JObj? && forall m :: m in r.fields["data"].fields <==> m in p.months
    ensures forall m :: m in p.months ==>
              && r.fields["data"].fields[m].JObj?
              && forall c :: c in r.fields["data"].fields[m].fields <==> c in p.categories
  {
    JObj(map[
      "image_path" := JStr(p.imagePath),
      "diagram_key" := JStr(p.diagramKey),
      "center_xy" := PointToJson(p.center),
      "months" := LabelsToJson(p.months),
      "categories" := LabelsToJson(p.categories),
      "data" := TableToJson(p)])
  }

  // ---------------------------------------------------------------------
  // Reading
  // ---------------------------------------------------------------------

  /** `d[key]`: fails unless d is a dictionary holding key. */
  function Lookup(d: Json, key: string): (r: Result<Json>)
    ensures r.Success? <==> d.JObj? && key in d.fields
    ensures r.Success? ==> r.value == d.fields[key]
  {
    if d.JObj? && key in d.fields then Success(d.fields[key])
    else Failure("KeyError: " + key)
  }

  /** `d.get(key, default)` on a dictionary. */
  function Get(fields: map<string, Json>, key: string, default: Json): Json {
    if key in fields then fields[key] else default
  }

  /** `float(x)` on a number read from the snapshot. */
  function AsNumber(j: Json): (r: Result<real>)
    ensures r.Success? <==> j.JNum?
    ensures r.Success? ==> j == JNum(r.value)
  {
    if j.JNum? then Success(j.n) else Failure("not a number")
  }

  function AsString(j: Json): (r: Result<string>)
    ensures r.Success? <==> j.JStr?
    ensures r.Success? ==> j == JStr(r.value)
  {
    if j.JStr? then Success(j.s) else Failure("not a string")
  }

  /** A list of labels; only a list of strings is accepted. */
  function AsLabels(j: Json): (r: Result<seq<string>>)
    ensures r.Success? <==> j.JArr? && forall k :: 0 <= k < |j.items| ==> j.items[k].JStr?
    ensures r.Success? ==> j == LabelsToJson(r.value)
  {
    if j.JArr? && forall k :: 0 <= k < |j.items| ==> j.items[k].JStr? then
      Success(seq(|j.items|, k requires 0 <= k < |j.items| => j.items[k].s))
    else
      Failure("not a list of labels")
  }

  /** The saved centre: a false-like value is no centre, a pair of numbers is a point. */
  function ParseCenter(j: Json): (r: Result<Option<Point>>)
    ensures !Truthy(j) ==> r == Success(None)
    ensures r.Success? && r.value.Some? ==> j == PointToJson(r.value)
  {
    if !Truthy(j) then Success(None)
    else if j.JArr? && |j.items| == 2 && j.items[0].JNum? && j.items[1].JNum? then
      Success(Some(Point(j.items[0].n, j.items[1].n)))
    else
      Failure("center_xy is not a pair of numbers")
  }

  /** A saved click: absent or null is no click; otherwise the first two
      entries of a list, each a number. */
  function ParseClick(j: Json): (r: Result<Option<Point>>)
    ensures j.JNull? ==> r == Success(None)
    ensures j.JArr? && |j.items| >= 2 && j.items[0].JNum? && j.items[1].JNum? ==>
              r == Success(Some(Point(j.items[0].n, j.items[1].n)))
    ensures r.Success? ==> j.JNull? || (j.JArr? && |j.items| >= 2)
  {
    if j.JNull? then Success(None)
    else if j.JArr? && |j.items| >= 2 then
      var x :- AsNumber(j.items[0]);
      var y :- AsNumber(j.items[1]);
      Success(Some(Point(x, y)))
    else
      Failure("click_xy is not a list of two numbers")
  }

  function ParseMissing(j: Json): (r: Result<bool>)
    ensures r.Success? <==> j.JBool?
    ensures r.Success? ==> j == JBool(r.value)
  {
    if j.JBool? then Success(j.b) else Failure("is_missing is not a boolean")
  }

  /** One saved cell: null is an empty cell, a dictionary a measurement whose
      click and missing flag may be absent (no click, not missing). */
  function ParseCell(v: Json): (r: Result<Option<Measurement>>)
    ensures v.JNull? ==> r == Success(None)
    ensures r.Success? ==> v.JNull? || v.JObj?
    ensures r.Success? && r.value.Some? ==>
              v.JObj? && "radius_px" in v.fields && v.fields["radius_px"] == JNum(r.value.value.radius)
    ensures r.Success? && r.value.Some? ==>
              (r.value.value.click.None? <==> "click_xy" !in v.fields || v.fields["click_xy"].JNull?)
    ensures r.Success? && r.value.Some? ==>
              (r.value.value.isMissing <==> "is_missing" in v.fields && v.fields["is_missing"] == JBool(true))
    ensures v.JObj? && "radius_px" in v.fields && v.fields["radius_px"].JNum?
            && "click_xy" !in v.fields && "is_missing" !in v.fields ==>
              r == Success(Some(Measurement(v.fields["radius_px"].n, None, false)))
  {
    match v
    case JNull => Success(None)
    case JObj(fields) =>
      var click :- ParseClick(Get(fields, "click_xy", JNull));
      var radiusJson :- Lookup(v, "radius_px");
      var radius :- AsNumber(radiusJson);
      var missing :- ParseMissing(Get(fields, "is_missing", JBool(false)));
      Success(Some(Measurement(radius, click, missing)))
    case _ => Failure("cell is neither null nor a dictionary")
  }

  /** `d["data"][m][c]`. */
  function LookupCell(d: Json, m: string, c: string): Result<Json> {
    var table :- Lookup(d, "data");
    var row :- Lookup(table, m);
    Lookup(row, c)
  }

  /** The cells of month m, read category by category; the first failing
      lookup or parse fails the whole read. */
  function ParseRow(d: Json, m: string, cats: seq<string>): (r: Result<Row>)
    ensures r.Success? ==> forall c :: c in r.value <==> c in cats
  {
    if cats == [] then Success(map[])
    else
      var v :- LookupCell(d, m, cats[0]);
      var cell :- ParseCell(v);
      var rest :- ParseRow(d, m, cats[1..]);
      assert forall c :: c in cats <==> c == cats[0] || c in cats[1..];
      Success(rest[cats[0] := cell])
  }

  /** All cells, read month by month. */
  function ParseTable(d: Json, months: seq<string>, cats: seq<string>): (r: Result<Table>)
    ensures r.Success? ==> forall m :: m in r.value <==> m in months
    ensures r.Success? ==> forall m :: m in months ==> forall c :: c in r.value[m] <==> c in cats
  {
    if months == [] then Success(map[])
    else
      var row :- ParseRow(d, months[0], cats);
      var rest :- ParseTable(d, months[1..], cats);
      assert forall m :: m in months <==> m == months[0] || m in months[1..];
      Success(rest[months[0] := row])
  }

  /** Rebuild a project from a saved dictionary. What it returns always has
      exactly one entry per (month, category) pair. */
  function DictToProject(d: Json): (r: Result<ProjectData>)
    ensures r.Success? ==> Shaped(r.value)
  {
    var imagePathJson :- Lookup(d, "image_path");
    var imagePath :- AsString(imagePathJson);
    var diagramKeyJson :- Lookup(d, "diagram_key");
    var diagramKey :- AsString(diagramKeyJson);
    var centerJson :- Lookup(d, "center_xy");
    var center :- ParseCenter(centerJson);
    var monthsJson :- Lookup(d, "months");
    var months :- AsLabels(monthsJson);
    var categoriesJson :- Lookup(d, "categories");
    var categories :- AsLabels(categoriesJson);
    var data :- ParseTable(d, months, categories);
    Success(ProjectData(imagePath, diagramKey, center, months, categories, data))
  }

  // ---------------------------------------------------------------------
  // Round trip
  // ---------------------------------------------------------------------

  /** A saved cell reads back as the cell. */
  lemma CellRoundTrip(v: Option<Measurement>)
    ensures ParseCell(CellToJson(v)) == Success(v)
  {
    if v.Some? {
      var fields := CellToJson(v).fields;
      assert Get(fields, "click_xy", JNull) == PointToJson(v.value.click);
      assert Get(fields, "is_missing", JBool(false)) == JBool(v.value.isMissing);
    }
  }

  lemma LabelsRoundTrip(s: seq<string>)
    ensures AsLabels(LabelsToJson(s)) == Success(s)
  {
    var j := LabelsToJson(s);
    assert forall k :: 0 <= k < |j.items| ==> j.items[k].JStr?;
    var r := seq(|j.items|, k requires 0 <= k < |j.items| => j.items[k].s);
    assert r == s;
  }

  lemma {:induction false} RowRoundTrip(p: ProjectData, m: string, cats: seq<string>)
    requires Shaped(p) && m in p.months
    requires forall c :: c in cats ==> c in p.categories
    ensures ParseRow(ProjectToDict(p), m, cats) == Success(map c | c in cats :: p.data[m][c])
  {
    if cats != [] {
      SavedCell(p, m, cats[0]);
      CellRoundTrip(p.data[m][cats[0]]);
      RowRoundTrip(p, m, cats[1..]);
      RowCons(p.data[m], cats);
    }
  }

  /** The saved dictionary holds each cell at `d["data"][m][c]`. */
  lemma SavedCell(p: ProjectData, m: string, c: string)
    requires Shaped(p) && m in p.months && c in p.categories
    ensures LookupCell(ProjectToDict(p), m, c) == Success(CellToJson(p.data[m][c]))
  {
  }

  /** A row rebuilt over a list of categories is its first category's cell
      added to the row rebuilt over the remaining categories. */
  lemma RowCons(row: Row, cats: seq<string>)
    requires cats != []
    requires forall c :: c in cats ==> c in row
    ensures (map c | c in cats[1..] :: row[c])[cats[0] := row[cats[0]]] == map c | c in cats :: row[c]
  {
    var rest := map c | c in cats[1..] :: row[c];
    assert rest[cats[0] := row[cats[0]]] == map c | c in cats :: row[c];
  }

  lemma {:induction false} TableRoundTrip(p: ProjectData, months: seq<string>)
    requires Shaped(p)
    requires forall m :: m in months ==> m in p.months
    ensures ParseTable(ProjectToDict(p), months, p.categories)
         == Success(map m | m in months :: map c | c in p.categories :: p.data[m][c])
  {
    if months != [] {
      RowRoundTrip(p, months[0], p.categories);
      TableRoundTrip(p, months[1..]);
      TableCons(p.data, months, p.categories);
    }
  }

  /** A table rebuilt over a list of months is its first month's row added to
      the table rebuilt over the remaining months. */
  lemma TableCons(data: Table, months: seq<string>, cats: seq<string>)
    requires months != []
    requires forall m :: m in months ==> m in data && forall c :: c in cats ==> c in data[m]
    ensures (map m | m in months[1..] :: map c | c in cats :: data[m][c])[months[0] := map c | c in cats :: data[months[0]][c]]
         == map m | m in months :: map c | c in cats :: data[m][c]
  {
    var rest := map m | m in months[1..] :: map c | c in cats :: data[m][c];
    var row := map c | c in cats :: data[months[0]][c];
    assert rest[months[0] := row] == map m | m in months :: map c | c in cats :: data[m][c];
  }

  /** A table rebuilt key by key over exactly its own keys is the same table. */
  lemma TableRebuiltByKeys(data: Table, months: seq<string>, cats: seq<string>)
    requires forall m :: m in data <==> m in months
    requires forall m :: m in months ==> forall c :: c in data[m] <==> c in cats
    ensures (map m | m in months :: map c | c in cats :: data[m][c]) == data
  {
    var table := map m | m in months :: map c | c in cats :: data[m][c];
    forall m | m in months
      ensures table[m] == data[m]
    {
      assert table[m].Keys == data[m].Keys;
    }
    assert table.Keys == data.Keys;
  }

  /** The saved cells read back as the project's table. */
  lemma TableRebuilt(p: ProjectData)
    requires Shaped(p)
    ensures ParseTable(ProjectToDict(p), p.months, p.categories) == Success(p.data)
  {
    TableRoundTrip(p, p.months);
    TableRebuiltByKeys(p.data, p.months, p.categories);
  }

  /** Saving and reading back reproduces the project: the same paths,
      labels and centre, and in every cell the same radius, click and
      missing flag. */
  lemma SnapshotRoundTrip(p: ProjectData)
    requires Shaped(p)
    ensures DictToProject(ProjectToDict(p)) == Success(p)
  {
    var d := ProjectToDict(p);
    assert Lookup(d, "image_path") == Success(JStr(p.imagePath));
    assert Lookup(d, "diagram_key") == Success(JStr(p.diagramKey));
    assert Lookup(d, "center_xy") == Success(PointToJson(p.center));
    assert Lookup(d, "months") == Success(LabelsToJson(p.months));
    assert Lookup(d, "categories") == Success(LabelsToJson(p.categories));
    LabelsRoundTrip(p.months);
    LabelsRoundTrip(p.categories);
    assert ParseCenter(PointToJson(p.center)) == Success(p.center);
    TableRebuilt(p);
  }
}
