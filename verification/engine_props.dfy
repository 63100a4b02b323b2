/** What the union and the structure-level operations of the engine promise. */
module EngineProperties {

  import opened Values
  import opened Results
  import opened Seqs
  import opened Structured
  import opened StructuredProperties
  import opened Datasets
  import opened Engine

  /** In a fitting row, the column at position k is read from cell k. */
  lemma GetColumn(p: DataPoint, k: nat)
    requires Fits(p) && k < Size(p.structure)
    ensures Get(p, ColumnNames(p.structure)[k]) == Ok(p.cells[k])
  {
    IndexOfStored(p.structure, k);
  }

  /** A fitting row read as a map (`getDataAsMap`) has exactly the structure's columns, each holding its cell. */
  lemma RowMapOfFit(p: DataPoint)
    requires Fits(p)
    ensures RowMap(p).Keys == set n | n in ColumnNames(p.structure)
    ensures forall k | 0 <= k < Size(p.structure) :: RowMap(p)[ColumnNames(p.structure)[k]] == p.cells[k]
  {
    var names := ColumnNames(p.structure);
    forall k | 0 <= k < |names|
      ensures Get(p, names[k]) == Ok(p.cells[k])
    {
      GetColumn(p, k);
    }
  }

  /** Realigning a map that has exactly the structure's columns, then reading the row back as a map, gives the map. */
  lemma RealignRowMap(s: DataStructure, m: map<string, Value>)
    requires WellFormed(s)
    requires m.Keys == set n | n in ColumnNames(s)
    ensures RowMap(Realign(s, m)) == m
  {
    var p := Realign(s, m);
    RowMapOfFit(p);
    forall n | n in m
      ensures RowMap(p)[n] == m[n]
    {
      var k :| 0 <= k < Size(s) && ColumnNames(s)[k] == n;
    }
  }

  /** Reading a fitting row as a map and realigning it to its own structure gives the row back. */
  lemma RowMapRealign(p: DataPoint)
    requires Fits(p)
    ensures Realign(p.structure, RowMap(p)) == p
  {
    RowMapOfFit(p);
    assert Realign(p.structure, RowMap(p)).cells == p.cells;
  }

  /** Compatible structures have the same column names, whatever their order. */
  lemma CompatibleColumns(a: DataStructure, b: DataStructure)
    requires Compatible(a, b)
    ensures (set n | n in ColumnNames(a)) == set n | n in ColumnNames(b)
  {
    assert Signature(a).Keys == Signature(b).Keys;
  }

  /** A column one structure has and another lacks makes them incompatible. */
  lemma MissingColumnIncompatible(a: DataStructure, b: DataStructure, n: string)
    requires n in ColumnNames(a) && n !in ColumnNames(b)
    ensures !Compatible(a, b)
  {
    assert n in Signature(a) && n !in Signature(b);
  }

  /** The union's row pool holds each row of each operand. */
  lemma AllRowsContains(ds: seq<Dataset>)
    ensures forall i, j | 0 <= i < |ds| && 0 <= j < |ds[i].points| :: RowMap(ds[i].points[j]) in AllRows(ds)
  {
    var ts := Tables(ds);
    ConcatContains(ts);
    forall i, j | 0 <= i < |ds| && 0 <= j < |ds[i].points|
      ensures RowMap(ds[i].points[j]) in AllRows(ds)
    {
      assert ts[i][j] == RowMap(ds[i].points[j]);
    }
  }

  /** Each entry of the union's row pool is a row of some operand: the operand and the row are returned. */
  lemma AllRowsOrigin(ds: seq<Dataset>, k: nat) returns (i: nat, j: nat)
    requires k < |AllRows(ds)|
    ensures i < |ds| && j < |ds[i].points|
    ensures AllRows(ds)[k] == RowMap(ds[i].points[j])
  {
    i, j := ConcatOrigin(Tables(ds), k);
  }

  /** Every row an operand of a successful union contributes has the first operand's columns. */
  lemma UnionRowColumns(ds: seq<Dataset>, operands: seq<string>, i: nat, j: nat)
    requires |ds| > 0 && |operands| == |ds|
    requires forall i | 0 <= i < |ds| :: Valid(ds[i])
    requires Union(ds, operands).Ok?
    requires i < |ds| && j < |ds[i].points|
    ensures RowMap(ds[i].points[j]).Keys == set n | n in ColumnNames(ds[0].structure)
  {
    var p := ds[i].points[j];
    assert Fits(p);
    RowMapOfFit(p);
    if i > 0 {
      CompatibleColumns(ds[0].structure, ds[i].structure);
    }
  }

  /** Read as a map, the k-th row of a successful union over valid operands is the k-th distinct pooled row. */
  lemma UnionRowAt(ds: seq<Dataset>, operands: seq<string>, k: nat)
    requires |ds| > 0 && |operands| == |ds|
    requires forall i | 0 <= i < |ds| :: Valid(ds[i])
    requires Union(ds, operands).Ok?
    requires k < |Distinct(AllRows(ds))|
    ensures k < |Union(ds, operands).value.points|
    ensures RowMap(Union(ds, operands).value.points[k]) == Distinct(AllRows(ds))[k]
  {
    var pool := AllRows(ds);
    var d := Distinct(pool);
    DistinctElements(pool);
    assert d[k] in d;
    var k' :| 0 <= k' < |pool| && pool[k'] == d[k];
    var i, j := AllRowsOrigin(ds, k');
    UnionRowColumns(ds, operands, i, j);
    RealignRowMap(ds[0].structure, d[k]);
  }

  /**
   With every operand valid, a successful union is valid, and read as maps
   its rows are the distinct rows of the operands in first-seen order.
   */
  lemma UnionRowsDistinct(ds: seq<Dataset>, operands: seq<string>)
    requires |ds| > 0 && |operands| == |ds|
    requires forall i | 0 <= i < |ds| :: Valid(ds[i])
    requires Union(ds, operands).Ok?
    ensures Valid(Union(ds, operands).value)
    ensures RowMaps(Union(ds, operands).value.points) == Distinct(AllRows(ds))
  {
    var u := Union(ds, operands).value;
    var d := Distinct(AllRows(ds));
    forall k | 0 <= k < |d|
      ensures RowMaps(u.points)[k] == d[k]
    {
      UnionRowAt(ds, operands, k);
    }
  }

  /**
   So each row of every operand appears in a successful union exactly once,
   and no other row appears.
   */
  lemma UnionRows(ds: seq<Dataset>, operands: seq<string>)
    requires |ds| > 0 && |operands| == |ds|
    requires forall i | 0 <= i < |ds| :: Valid(ds[i])
    requires Union(ds, operands).Ok?
    ensures NoDuplicates(RowMaps(Union(ds, operands).value.points))
    ensures forall i, j | 0 <= i < |ds| && 0 <= j < |ds[i].points| ::
      RowMap(ds[i].points[j]) in RowMaps(Union(ds, operands).value.points)
    ensures forall m | m in RowMaps(Union(ds, operands).value.points) ::
      exists i, j | 0 <= i < |ds| && 0 <= j < |ds[i].points| :: m == RowMap(ds[i].points[j])
  {
    var ms := RowMaps(Union(ds, operands).value.points);
    var pool := AllRows(ds);
    UnionRowsDistinct(ds, operands);
    DistinctElements(pool);
    DistinctNoDuplicates(pool);
    AllRowsContains(ds);
    forall m | m in ms
      ensures exists i, j | 0 <= i < |ds| && 0 <= j < |ds[i].points| :: m == RowMap(ds[i].points[j])
    {
      var k :| 0 <= k < |pool| && pool[k] == m;
      var i, j := AllRowsOrigin(ds, k);
    }
  }

  /** The union of a dataset with itself succeeds, keeps its structure and contains every one of its rows. */
  lemma UnionWithItself(d: Dataset, first: string, second: string)
    requires Valid(d)
    ensures Union([d, d], [first, second]).Ok?
    ensures Union([d, d], [first, second]).value.structure == d.structure
    ensures forall j | 0 <= j < |d.points| :: RowMap(d.points[j]) in RowMaps(Union([d, d], [first, second]).value.points)
  {
    UnionRows([d, d], [first, second]);
    UnionRowsDistinct([d, d], [first, second]);
    forall j | 0 <= j < |d.points|
      ensures RowMap(d.points[j]) in RowMaps(Union([d, d], [first, second]).value.points)
    {
      assert [d, d][0] == d;
    }
  }

  /** A structure laid out from components with distinct names maps each name to the copy of its component. */
  lemma SignatureOfLaidOut(s: DataStructure, cs: seq<Component>)
    requires LaidOut(s, cs)
    requires NoDuplicates(Names(cs))
    ensures Signature(s).Keys == set n | n in Names(cs)
    ensures forall i | 0 <= i < |cs| :: Signature(s)[cs[i].name] == Copy(cs[i])
  {
    LaidOutWellFormed(s, cs);
    forall i | 0 <= i < |cs|
      ensures Signature(s)[cs[i].name] == Copy(cs[i])
    {
      assert ColumnNames(s)[i] == cs[i].name;
      FindUnique(s, i);
    }
  }

  /** Reordering components keeps the set of their names. */
  lemma SameNames(cs1: seq<Component>, cs2: seq<Component>)
    requires multiset(cs1) == multiset(cs2)
    ensures (set n | n in Names(cs1)) == set n | n in Names(cs2)
  {
    forall i | 0 <= i < |cs1|
      ensures cs1[i].name in Names(cs2)
    {
      assert cs1[i] in multiset(cs2);
      var k :| 0 <= k < |cs2| && cs2[k] == cs1[i];
      assert Names(cs2)[k] == cs1[i].name;
    }
    forall k | 0 <= k < |cs2|
      ensures cs2[k].name in Names(cs1)
    {
      assert cs2[k] in multiset(cs1);
      var i :| 0 <= i < |cs1| && cs1[i] == cs2[k];
      assert Names(cs1)[i] == cs2[k].name;
    }
  }

  /** Two name-to-component maps that each key the copies of the same components agree. */
  lemma KeyedCopiesAgree(sig1: map<string, Component>, cs1: seq<Component>, sig2: map<string, Component>, cs2: seq<Component>)
    requires sig1.Keys == set n | n in Names(cs1)
    requires sig2.Keys == set n | n in Names(cs2)
    requires forall i | 0 <= i < |cs1| :: sig1[cs1[i].name] == Copy(cs1[i])
    requires forall k | 0 <= k < |cs2| :: sig2[cs2[k].name] == Copy(cs2[k])
    requires multiset(cs1) == multiset(cs2)
    ensures sig1 == sig2
  {
    SameNames(cs1, cs2);
    forall n | n in sig1
      ensures sig1[n] == sig2[n]
    {
      var i :| 0 <= i < |cs1| && Names(cs1)[i] == n;
      assert cs1[i] in multiset(cs2);
      var k :| 0 <= k < |cs2| && cs2[k] == cs1[i];
    }
  }

  /** Structures laid out from the same components, in any order, have the same signature. */
  lemma LaidOutCompatible(s1: DataStructure, cs1: seq<Component>, s2: DataStructure, cs2: seq<Component>)
    requires LaidOut(s1, cs1) && LaidOut(s2, cs2)
    requires NoDuplicates(Names(cs1)) && NoDuplicates(Names(cs2))
    requires multiset(cs1) == multiset(cs2)
    ensures Compatible(s1, s2)
  {
    SignatureOfLaidOut(s1, cs1);
    SignatureOfLaidOut(s2, cs2);
    KeyedCopiesAgree(Signature(s1), cs1, Signature(s2), cs2);
  }

  /**
   Two structures built from the same components (same name, type and
   role) in different orders are union-compatible.
   */
  lemma ReorderedCompatible(cs1: seq<Component>, cs2: seq<Component>)
    requires NoDuplicates(Names(cs1)) && NoDuplicates(Names(cs2))
    requires multiset(cs1) == multiset(cs2)
    ensures Compatible(FromComponents(cs1), FromComponents(cs2))
  {
    FromComponentsPositions(cs1);
    FromComponentsPositions(cs2);
    LaidOutCompatible(FromComponents(cs1), cs1, FromComponents(cs2), cs2);
  }

  /** A union fails exactly at the first operand incompatible with the first. */
  lemma UnionReportsFirstIncompatible(ds: seq<Dataset>, operands: seq<string>, i: nat)
    requires |ds| > 0 && |operands| == |ds|
    requires 0 < i < |ds|
    requires forall j | 0 < j < i :: Compatible(ds[0].structure, ds[j].structure)
    requires !Compatible(ds[0].structure, ds[i].structure)
    ensures Union(ds, operands) == Err(Incompatible(i, operands[i]))
  {
    var r := FirstIncompatible(Structures(ds), 1);
    assert r.Some?;
    assert !(r.value < i) && !(r.value > i);
  }

  /** Three components with distinct names, and a fourth named like none of them. */
  predicate Distinct3(a: Component, b: Component, c: Component, a2: Component) {
    && a.name != b.name && b.name != c.name && a.name != c.name
    && a2.name != a.name && a2.name != b.name && a2.name != c.name
  }

  /** Three components with distinct names have distinct names in either order of the first two. */
  lemma ThreeNames(a: Component, b: Component, c: Component)
    requires a.name != b.name && b.name != c.name && a.name != c.name
    ensures NoDuplicates(Names([a, b, c])) && NoDuplicates(Names([b, a, c]))
  {
    assert Names([a, b, c]) == [a.name, b.name, c.name];
    assert Names([b, a, c]) == [b.name, a.name, c.name];
  }

  /** The first two structures of the test: the same columns in another order. */
  lemma TestReordered(a: Component, b: Component, c: Component)
    requires a.name != b.name && b.name != c.name && a.name != c.name
    ensures Compatible(FromComponents([a, b, c]), FromComponents([b, a, c]))
  {
    ThreeNames(a, b, c);
    assert multiset([a, b, c]) == multiset([b, a, c]);
    ReorderedCompatible([a, b, c], [b, a, c]);
  }

  /** The first and third structures of the test: a column renamed. */
  lemma TestRenamed(a: Component, b: Component, c: Component, a2: Component)
    requires Distinct3(a, b, c, a2)
    ensures !Compatible(FromComponents([a, b, c]), FromComponents([a2, b, c]))
  {
    var cs1, cs3 := [a, b, c], [a2, b, c];
    assert Names(cs1) == [a.name, b.name, c.name];
    assert Names(cs3) == [a2.name, b.name, c.name];
    FromComponentsWellFormed(cs1);
    FromComponentsWellFormed(cs3);
    MissingColumnIncompatible(FromComponents(cs1), FromComponents(cs3), a.name);
  }

  /**
   The incompatible-structure case of the union tests: the first two
   datasets list the same three columns in different orders, the third
   replaces the first column by one of another name; the union reports the
   third operand.
   */
  lemma UnionIncompatibleStructure(a: Component, b: Component, c: Component, a2: Component, operands: seq<string>)
    requires Distinct3(a, b, c, a2)
    requires |operands| == 3
    ensures
      var ds1 := Dataset(FromComponents([a, b, c]), []);
      var ds2 := Dataset(FromComponents([b, a, c]), []);
      var ds3 := Dataset(FromComponents([a2, b, c]), []);
      Union([ds1, ds2, ds3], operands) == Err(Incompatible(2, operands[2]))
  {
    TestReordered(a, b, c);
    TestRenamed(a, b, c, a2);
    var ds1 := Dataset(FromComponents([a, b, c]), []);
    var ds2 := Dataset(FromComponents([b, a, c]), []);
    var ds3 := Dataset(FromComponents([a2, b, c]), []);
    UnionReportsFirstIncompatible([ds1, ds2, ds3], operands, 2);
  }

  /**
   With distinct keys (a Java map), the rename map sends each key to its
   value and leaves every other name alone.
   */
  lemma {:induction false} NewNameOfMap(fromTo: seq<(string, string)>, n: string)
    requires NoDuplicates(Keys(fromTo))
    ensures forall k | 0 <= k < |fromTo| && fromTo[k].0 == n :: NewName(fromTo, n) == fromTo[k].1
    ensures n !in Keys(fromTo) ==> NewName(fromTo, n) == n
  {
    if |fromTo| > 0 {
      var rest := fromTo[1..];
      assert Keys(rest) == Keys(fromTo)[1..];
      NewNameOfMap(rest, n);
      forall k | 0 <= k < |fromTo| && fromTo[k].0 == n
        ensures NewName(fromTo, n) == fromTo[k].1
      {
        if k > 0 {
          assert Keys(fromTo)[0] != Keys(fromTo)[k];
          assert rest[k - 1] == fromTo[k];
        }
      }
    }
  }

  /**
   When the new names are distinct, the renamed structure keeps every
   column where it was, with its type and role, under its new name.
   */
  lemma RenameLayout(s: DataStructure, fromTo: seq<(string, string)>)
    requires RenameStructure(s, fromTo).Ok?
    requires NoDuplicates(Names(Renamed(s, fromTo)))
    ensures var r := RenameStructure(s, fromTo).value;
      && WellFormed(r)
      && Size(r) == Size(s)
      && forall i | 0 <= i < Size(s) ::
           r.components[i] == Component(NewName(fromTo, s.components[i].name), s.components[i].ty, s.components[i].role, i)
  {
    var cs := Renamed(s, fromTo);
    FromComponentsPositions(cs);
    LaidOutWellFormed(FromComponents(cs), cs);
  }

  /**
   Renaming keeps the cells: under distinct new names, each row reads under
   a column's new name what it read under the old one.
   */
  lemma RenameRows(d: Dataset, fromTo: seq<(string, string)>)
    requires Valid(d)
    requires Rename(d, fromTo).Ok?
    requires NoDuplicates(Names(Renamed(d.structure, fromTo)))
    ensures Valid(Rename(d, fromTo).value)
    ensures |Rename(d, fromTo).value.points| == |d.points|
    ensures forall j, i | 0 <= j < |d.points| && 0 <= i < Size(d.structure) ::
      Get(Rename(d, fromTo).value.points[j], NewName(fromTo, ColumnNames(d.structure)[i]))
        == Get(d.points[j], ColumnNames(d.structure)[i])
  {
    var s := d.structure;
    var r := RenameStructure(s, fromTo).value;
    var e := Rename(d, fromTo).value;
    RenameLayout(s, fromTo);
    forall j, i | 0 <= j < |d.points| && 0 <= i < Size(s)
      ensures Get(e.points[j], NewName(fromTo, ColumnNames(s)[i])) == Get(d.points[j], ColumnNames(s)[i])
    {
      GetColumn(d.points[j], i);
      assert Fits(e.points[j]);
      assert ColumnNames(r)[i] == NewName(fromTo, ColumnNames(s)[i]);
      GetColumn(e.points[j], i);
    }
  }

  /**
   Projecting on known names gives a well-formed structure whose columns
   are exactly the listed names, each once and in first-listed order; names
   listed once each are kept exactly as listed.
   */
  lemma ProjectColumns(s: DataStructure, names: seq<string>)
    requires ProjectStructure(s, names).Ok?
    ensures var r := ProjectStructure(s, names).value;
      && WellFormed(r)
      && ColumnNames(r) == Distinct(names)
      && (forall n :: n in ColumnNames(r) <==> n in names)
      && (NoDuplicates(names) ==> ColumnNames(r) == names)
  {
    var u := Distinct(names);
    if NoDuplicates(names) {
      DistinctOfNoDuplicates(names);
    }
    DistinctElements(names);
    DistinctNoDuplicates(names);
    var cs := Listed(s, u);
    assert Names(cs) == u;
    FromComponentsPositions(cs);
    LaidOutWellFormed(FromComponents(cs), cs);
  }

  /** Each kept column has the type and role it had, at its place in the kept list. */
  lemma ProjectLayout(s: DataStructure, names: seq<string>)
    requires ProjectStructure(s, names).Ok?
    ensures var r := ProjectStructure(s, names).value;
      && |r.components| == |Distinct(names)|
      && (forall i | 0 <= i < |Distinct(names)| :: Lookup(s, Distinct(names)[i]).Some?)
      && forall i | 0 <= i < |Distinct(names)| :: Equal(r.components[i], Lookup(s, Distinct(names)[i]).value)
  {
    var u := Distinct(names);
    DistinctElements(names);
    DistinctNoDuplicates(names);
    var cs := Listed(s, u);
    assert Names(cs) == u;
    FromComponentsPositions(cs);
  }

  /** Reading known columns of a fitting row succeeds, cell by cell. */
  lemma {:induction false} CellsOfFit(p: DataPoint, names: seq<string>)
    requires Fits(p)
    requires forall i | 0 <= i < |names| :: names[i] in ColumnNames(p.structure)
    ensures CellsOf(p, names).Ok?
    ensures |CellsOf(p, names).value| == |names|
    ensures forall i | 0 <= i < |names| :: Get(p, names[i]) == Ok(CellsOf(p, names).value[i])
  {
    if |names| > 0 {
      var rest := names[1..];
      CellsOfFit(p, rest);
      var k := Find(p.structure.components, names[0]).value;
      assert ColumnNames(p.structure)[k] == names[0];
      GetColumn(p, k);
      forall i | 1 <= i < |names|
        ensures Get(p, names[i]) == Ok(CellsOf(p, names).value[i])
      {
        assert rest[i - 1] == names[i];
      }
    }
  }

  /** Projecting rows that fit a structure holding every listed name succeeds, row by row. */
  lemma {:induction false} ProjectRowsFit(points: seq<DataPoint>, names: seq<string>, s: DataStructure)
    requires forall j | 0 <= j < |points| :: Fits(points[j])
    requires forall j, i | 0 <= j < |points| && 0 <= i < |names| :: names[i] in ColumnNames(points[j].structure)
    ensures ProjectRows(points, names, s).Ok?
    ensures |ProjectRows(points, names, s).value| == |points|
    ensures forall j | 0 <= j < |points| ::
      && CellsOf(points[j], names).Ok?
      && ProjectRows(points, names, s).value[j] == DataPoint(s, CellsOf(points[j], names).value)
  {
    if |points| > 0 {
      var rest := points[1..];
      CellsOfFit(points[0], names);
      forall j | 0 <= j < |rest|
        ensures Fits(rest[j])
        ensures forall i | 0 <= i < |names| :: names[i] in ColumnNames(rest[j].structure)
      {
        assert rest[j] == points[j + 1];
      }
      ProjectRowsFit(rest, names, s);
      var head := DataPoint(s, CellsOf(points[0], names).value);
      assert ProjectRows(points, names, s) == Ok([head] + ProjectRows(rest, names, s).value);
      forall j | 1 <= j < |points|
        ensures CellsOf(points[j], names).Ok?
        ensures ProjectRows(points, names, s).value[j] == DataPoint(s, CellsOf(points[j], names).value)
      {
        assert rest[j - 1] == points[j];
      }
    }
  }

  /**
   A projection on known names of a valid dataset succeeds, each row
   holding the cells of the listed columns, each once and in first-listed
   order.
   */
  lemma ProjectShape(d: Dataset, names: seq<string>)
    requires Valid(d)
    requires forall i | 0 <= i < |names| :: names[i] in ColumnNames(d.structure)
    ensures Project(d, names).Ok?
    ensures var e := Project(d, names).value;
      && Valid(e)
      && ColumnNames(e.structure) == Distinct(names)
      && |e.points| == |d.points|
      && forall j | 0 <= j < |d.points| ::
           && CellsOf(d.points[j], Distinct(names)).Ok?
           && e.points[j] == DataPoint(e.structure, CellsOf(d.points[j], Distinct(names)).value)
  {
    var u := Distinct(names);
    var s := ProjectStructure(d.structure, names).value;
    ProjectColumns(d.structure, names);
    DistinctWithin(names, ColumnNames(d.structure));
    forall j | 0 <= j < |d.points|
      ensures Fits(d.points[j])
      ensures forall i | 0 <= i < |u| :: u[i] in ColumnNames(d.points[j].structure)
    {
      assert d.points[j].structure == d.structure;
    }
    ProjectRowsFit(d.points, u, s);
    var rows := ProjectRows(d.points, u, s).value;
    assert Project(d, names) == Ok(Dataset(s, rows));
    forall j | 0 <= j < |rows|
      ensures rows[j].structure == s && |rows[j].cells| == Size(s)
    {
      CellsOfFit(d.points[j], u);
      assert |ColumnNames(s)| == Size(s);
    }
  }

  /**
   `executeProject` keeps exactly the listed columns: on known names of a
   valid dataset it succeeds, the result's columns are those names, each
   once, and every row reads under each listed name what it read before.
   */
  lemma ProjectRowsKept(d: Dataset, names: seq<string>)
    requires Valid(d)
    requires forall i | 0 <= i < |names| :: names[i] in ColumnNames(d.structure)
    ensures Project(d, names).Ok?
    ensures Valid(Project(d, names).value)
    ensures forall n :: n in ColumnNames(Project(d, names).value.structure) <==> n in names
    ensures |Project(d, names).value.points| == |d.points|
    ensures forall j, i | 0 <= j < |d.points| && 0 <= i < |names| ::
      Get(Project(d, names).value.points[j], names[i]) == Get(d.points[j], names[i])
  {
    ProjectShape(d, names);
    ProjectColumns(d.structure, names);
    var u := Distinct(names);
    var e := Project(d, names).value;
    DistinctElements(names);
    forall j, i | 0 <= j < |d.points| && 0 <= i < |names|
      ensures Get(e.points[j], names[i]) == Get(d.points[j], names[i])
    {
      assert names[i] in u;
      var k :| 0 <= k < |u| && u[k] == names[i];
      DistinctWithin(names, ColumnNames(d.points[j].structure));
      ProjectedCell(d.points[j], e.points[j], u, k);
    }
  }

  /** A row holding the listed cells of another, over a structure of exactly those columns, reads them back. */
  lemma ProjectedCell(p: DataPoint, q: DataPoint, names: seq<string>, i: nat)
    requires Fits(p)
    requires forall i | 0 <= i < |names| :: names[i] in ColumnNames(p.structure)
    requires WellFormed(q.structure) && ColumnNames(q.structure) == names
    requires CellsOf(p, names).Ok? && q.cells == CellsOf(p, names).value
    requires i < |names|
    ensures Get(q, names[i]) == Get(p, names[i])
  {
    CellsOfFit(p, names);
    GetColumn(q, i);
  }

  /**
   The calc structure's columns are the input's followed by the computed
   ones not already present; a computed column carries its expression's
   type and its declared role.
   */
  lemma CalcComputedColumns(s: DataStructure, columns: seq<(string, Type)>, roles: map<string, Role>)
    requires CalcStructure(s, columns, roles).Ok?
    requires NoDuplicates(Keys(columns))
    ensures var r := CalcStructure(s, columns, roles).value;
      && UniqueNames(r)
      && ColumnNames(r) == Distinct(ColumnNames(s) + Keys(columns))
      && forall i | 0 <= i < |columns| ::
           && Lookup(r, columns[i].0).Some?
           && Lookup(r, columns[i].0).value.ty == columns[i].1
           && Lookup(r, columns[i].0).value.role == roles[columns[i].0]
  {
    var computed := Described(columns, roles);
    var cs := s.components + computed;
    FromComponentsNames(cs);
    CalcNames(s, columns, roles);
    forall i | 0 <= i < |columns|
      ensures Lookup(FromComponents(cs), columns[i].0).Some?
      ensures Equal(Lookup(FromComponents(cs), columns[i].0).value, computed[i])
    {
      ComputedLast(s, columns, roles, i);
      FromComponentsLast(cs, |s.components| + i);
    }
  }

  /** With distinct computed names, no later component a calc puts shares a computed column's name. */
  lemma ComputedLast(s: DataStructure, columns: seq<(string, Type)>, roles: map<string, Role>, i: nat)
    requires forall i | 0 <= i < |columns| :: columns[i].0 in roles
    requires NoDuplicates(Keys(columns))
    requires i < |columns|
    ensures var cs := s.components + Described(columns, roles);
      && cs[|s.components| + i] == Described(columns, roles)[i]
      && LastNamed(cs, |s.components| + i)
  {
    var cs := s.components + Described(columns, roles);
    var k := |s.components| + i;
    forall j | k < j < |cs|
      ensures cs[j].name != cs[k].name
    {
      assert Keys(columns)[j - |s.components|] != Keys(columns)[i];
    }
  }

  /** The components a calc puts are named by the input's columns, then by the computed ones. */
  lemma CalcNames(s: DataStructure, columns: seq<(string, Type)>, roles: map<string, Role>)
    requires forall i | 0 <= i < |columns| :: columns[i].0 in roles
    ensures Names(s.components + Described(columns, roles)) == ColumnNames(s) + Keys(columns)
  {
    var cs := s.components + Described(columns, roles);
    forall i | 0 <= i < |cs|
      ensures Names(cs)[i] == (ColumnNames(s) + Keys(columns))[i]
    {
      if i >= |s.components| {
        assert cs[i] == Described(columns, roles)[i - |s.components|];
      }
    }
  }

  /** A calc leaves every input column it does not compute as it was. */
  lemma CalcKeptColumns(s: DataStructure, columns: seq<(string, Type)>, roles: map<string, Role>)
    requires CalcStructure(s, columns, roles).Ok?
    requires UniqueNames(s)
    ensures var r := CalcStructure(s, columns, roles).value;
      forall n | n in ColumnNames(s) && n !in Keys(columns) ::
        Lookup(r, n).Some? && Equal(Lookup(r, n).value, Lookup(s, n).value)
  {
    var computed := Described(columns, roles);
    var cs := s.components + computed;
    forall n | n in ColumnNames(s) && n !in Keys(columns)
      ensures Lookup(FromComponents(cs), n).Some? && Equal(Lookup(FromComponents(cs), n).value, Lookup(s, n).value)
    {
      var k := Find(s.components, n).value;
      assert cs[k] == s.components[k];
      forall j | k < j < |cs|
        ensures cs[j].name != n
      {
        if j < |s.components| {
          assert ColumnNames(s)[j] != ColumnNames(s)[k];
        } else {
          assert cs[j].name == Keys(columns)[j - |s.components|];
        }
      }
      FromComponentsLast(cs, k);
    }
  }
}
