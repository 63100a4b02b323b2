/**
 Datasets as the processing engine sees them: a structure and its rows,
 each row readable as a name-to-value map (`getDataAsMap`).
 */
module Datasets {

  import opened Values
  import opened Results
  import opened Seqs
  import opened Structured

  datatype Dataset = Dataset(structure: DataStructure, points: seq<DataPoint>)

  /** A dataset whose structure is well formed and whose every row fits it. */
  predicate Valid(d: Dataset) {
    && WellFormed(d.structure)
    && forall j | 0 <= j < |d.points| :: d.points[j].structure == d.structure && |d.points[j].cells| == Size(d.structure)
  }

  /**
   A structure as `equals` compares it: a map from each name to its
   component with the index erased (`Component.equals` ignores the index,
   and map equality ignores the order of the entries).
   */
  function Signature(s: DataStructure): map<string, Component> {
    map n | n in ColumnNames(s) :: Copy(Lookup(s, n).value)
  }

  /** `DataStructure.equals`: the same names, each with an equal component, in any order. */
  predicate Compatible(a: DataStructure, b: DataStructure) {
    Signature(a) == Signature(b)
  }

  /** A row as a map from column name to value, over the columns it can read. */
  function RowMap(p: DataPoint): map<string, Value> {
    map n | n in ColumnNames(p.structure) && Get(p, n).Ok? :: Get(p, n).value
  }

  /** The rows of a dataset as maps, in row order. */
  function RowMaps(points: seq<DataPoint>): (ms: seq<map<string, Value>>)
    ensures |ms| == |points|
    ensures forall j | 0 <= j < |points| :: ms[j] == RowMap(points[j])
  {
    seq(|points|, j requires 0 <= j < |points| => RowMap(points[j]))
  }

  /** A row of structure `s` holding the map's value for each column, null where it has none. */
  function Realign(s: DataStructure, m: map<string, Value>): (p: DataPoint)
    ensures p.structure == s
    ensures |p.cells| == Size(s)
  {
    DataPoint(s, seq(|s.components|, i requires 0 <= i < |s.components| =>
      if s.components[i].name in m then m[s.components[i].name] else Null))
  }

  function RealignAll(s: DataStructure, ms: seq<map<string, Value>>): (ps: seq<DataPoint>)
    ensures |ps| == |ms|
    ensures forall j | 0 <= j < |ms| :: ps[j] == Realign(s, ms[j])
  {
    seq(|ms|, j requires 0 <= j < |ms| => Realign(s, ms[j]))
  }
}
