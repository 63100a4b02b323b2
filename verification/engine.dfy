/**
 The processing engine's dataset operations: union, rename, project, and
 the structure of calc. Each takes resolved datasets; the typed
 expressions that defer them are in module Typed.
 */
module Engine {

  import opened Values
  import opened Results
  import opened Seqs
  import opened Structured
  import opened Datasets

  /** The structures of the operands, in order. */
  function Structures(ds: seq<Dataset>): (ss: seq<DataStructure>)
    ensures |ss| == |ds|
    ensures forall i | 0 <= i < |ds| :: ss[i] == ds[i].structure
  {
    seq(|ds|, i requires 0 <= i < |ds| => ds[i].structure)
  }

  /** The first structure from position `from` on that is not compatible with the first one. */
  function FirstIncompatible(ss: seq<DataStructure>, from: nat): (r: Option<nat>)
    requires |ss| > 0
    ensures r.None? <==> forall i | from <= i < |ss| :: Compatible(ss[0], ss[i])
    ensures r.Some? ==> from <= r.value < |ss| && !Compatible(ss[0], ss[r.value])
    ensures r.Some? ==> forall i | from <= i < r.value :: Compatible(ss[0], ss[i])
    decreases |ss| - from
  {
    if from >= |ss| then None
    else if !Compatible(ss[0], ss[from]) then Some(from)
    else FirstIncompatible(ss, from + 1)
  }

  /** Every row of every operand, as maps, operand by operand. */
  function AllRows(ds: seq<Dataset>): seq<map<string, Value>> {
    Concat(Tables(ds))
  }

  /** Each operand's rows as maps. */
  function Tables(ds: seq<Dataset>): (ts: seq<seq<map<string, Value>>>)
    ensures |ts| == |ds|
    ensures forall i | 0 <= i < |ds| :: ts[i] == RowMaps(ds[i].points)
  {
    seq(|ds|, i requires 0 <= i < |ds| => RowMaps(ds[i].points))
  }

  /**
   `executeUnion`: every operand must have the first operand's structure,
   in any column order; the first that does not is reported by position and
   by its operand text. The result has the first operand's structure and
   holds each distinct row of the operands once, in first-seen order.
   */
  function Union(ds: seq<Dataset>, operands: seq<string>): (r: Result<Dataset>)
    requires |ds| > 0 && |operands| == |ds|
    ensures r.Err? <==> exists i | 0 < i < |ds| :: !Compatible(ds[0].structure, ds[i].structure)
    ensures r.Err? ==> exists i | 0 < i < |ds| ::
      && r.error == Incompatible(i, operands[i])
      && !Compatible(ds[0].structure, ds[i].structure)
      && forall j | 0 < j < i :: Compatible(ds[0].structure, ds[j].structure)
    ensures r.Ok? ==> r.value.structure == ds[0].structure
  {
    match FirstIncompatible(Structures(ds), 1)
    case Some(i) => Err(Incompatible(i, operands[i]))
    case None => Ok(Dataset(ds[0].structure, RealignAll(ds[0].structure, Distinct(AllRows(ds)))))
  }

  /** The first of `names` that is not a column of `s`. */
  function FirstUnknown(s: DataStructure, names: seq<string>): (r: Option<string>)
    ensures r.None? <==> forall i | 0 <= i < |names| :: names[i] in ColumnNames(s)
    ensures r.Some? ==> r.value in names && r.value !in ColumnNames(s)
  {
    if |names| == 0 then None
    else if names[0] !in ColumnNames(s) then Some(names[0])
    else
      var r := FirstUnknown(s, names[1..]);
      assert forall i | 1 <= i < |names| :: names[i] == names[1..][i - 1];
      r
  }

  /** The new name a rename map gives `n`, or `n` itself when it is not renamed. */
  function NewName(fromTo: seq<(string, string)>, n: string): string {
    if |fromTo| == 0 then n
    else if fromTo[0].0 == n then fromTo[0].1
    else NewName(fromTo[1..], n)
  }

  /** The structure's components, renamed; positions, types and roles untouched. */
  function Renamed(s: DataStructure, fromTo: seq<(string, string)>): (cs: seq<Component>)
    ensures |cs| == |s.components|
    ensures forall i | 0 <= i < |cs| :: cs[i] == s.components[i].(name := NewName(fromTo, s.components[i].name))
  {
    seq(|s.components|, i requires 0 <= i < |s.components| =>
      s.components[i].(name := NewName(fromTo, s.components[i].name)))
  }

  /**
   The structure of `executeRename`: every key of the rename map (old name
   to new name) must be a column; each column is then renamed in place.
   */
  function RenameStructure(s: DataStructure, fromTo: seq<(string, string)>): (r: Result<DataStructure>)
    ensures r.Err? <==> exists i | 0 <= i < |fromTo| :: fromTo[i].0 !in ColumnNames(s)
    ensures r.Err? ==> r.error.UnknownColumn? && r.error.name in Keys(fromTo) && r.error.name !in ColumnNames(s)
  {
    match FirstUnknown(s, Keys(fromTo))
    case Some(n) => Err(UnknownColumn(n))
    case None => Ok(FromComponents(Renamed(s, fromTo)))
  }

  /** `executeRename`: the renamed structure over the same cells. */
  function Rename(d: Dataset, fromTo: seq<(string, string)>): Result<Dataset> {
    var s :- RenameStructure(d.structure, fromTo);
    Ok(Dataset(s, seq(|d.points|, j requires 0 <= j < |d.points| => DataPoint(s, d.points[j].cells))))
  }

  /** The stored components of the listed columns, in list order. */
  function Listed(s: DataStructure, names: seq<string>): (cs: seq<Component>)
    requires forall i | 0 <= i < |names| :: names[i] in ColumnNames(s)
    ensures |cs| == |names|
    ensures forall i | 0 <= i < |names| :: Lookup(s, names[i]) == Some(cs[i])
  {
    seq(|names|, i requires 0 <= i < |names| => Lookup(s, names[i]).value)
  }

  /**
   The structure of `executeProject`: the listed columns, in list order,
   a name listed twice being kept once, at its first place (the structure
   is a map); an unknown name fails.
   */
  function ProjectStructure(s: DataStructure, names: seq<string>): (r: Result<DataStructure>)
    ensures r.Err? <==> exists i | 0 <= i < |names| :: names[i] !in ColumnNames(s)
    ensures r.Err? ==> r.error.UnknownColumn? && r.error.name in names && r.error.name !in ColumnNames(s)
  {
    match FirstUnknown(s, names)
    case Some(n) => Err(UnknownColumn(n))
    case None =>
      DistinctWithin(names, ColumnNames(s));
      Ok(FromComponents(Listed(s, Distinct(names))))
  }

  /** The cells of the listed columns of a row, in list order. */
  function CellsOf(p: DataPoint, names: seq<string>): Result<seq<Value>> {
    if |names| == 0 then Ok([])
    else
      var v :- Get(p, names[0]);
      var rest :- CellsOf(p, names[1..]);
      Ok([v] + rest)
  }

  function ProjectRows(points: seq<DataPoint>, names: seq<string>, s: DataStructure): Result<seq<DataPoint>> {
    if |points| == 0 then Ok([])
    else
      var cells :- CellsOf(points[0], names);
      var rest :- ProjectRows(points[1..], names, s);
      Ok([DataPoint(s, cells)] + rest)
  }

  /** `executeProject`: only the listed columns, each once and in list order, row by row. */
  function Project(d: Dataset, names: seq<string>): Result<Dataset> {
    var s :- ProjectStructure(d.structure, names);
    var rows :- ProjectRows(d.points, Distinct(names), s);
    Ok(Dataset(s, rows))
  }

  /** The first computed column with no role, if any. */
  function FirstWithoutRole(columns: seq<(string, Type)>, roles: map<string, Role>): (r: Option<string>)
    ensures r.None? <==> forall i | 0 <= i < |columns| :: columns[i].0 in roles
    ensures r.Some? ==> r.value in Keys(columns) && r.value !in roles
  {
    if |columns| == 0 then None
    else if columns[0].0 !in roles then Some(columns[0].0)
    else
      var r := FirstWithoutRole(columns[1..], roles);
      assert forall i | 1 <= i < |columns| :: columns[i] == columns[1..][i - 1];
      r
  }

  /**
   The structure of `executeCalc`: the input's columns followed by the
   computed ones, each computed column typed by its expression and given
   the role it is declared with; a computed column whose name is already a
   column replaces it where it stands.
   */
  function CalcStructure(s: DataStructure, columns: seq<(string, Type)>, roles: map<string, Role>): (r: Result<DataStructure>)
    ensures r.Err? <==> exists i | 0 <= i < |columns| :: columns[i].0 !in roles
    ensures r.Err? ==> r.error.MissingRole? && r.error.name in Keys(columns) && r.error.name !in roles
  {
    match FirstWithoutRole(columns, roles)
    case Some(n) => Err(MissingRole(n))
    case None => Ok(FromComponents(s.components + Described(columns, roles)))
  }
}
