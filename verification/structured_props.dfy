/** What the constructors and accessors of the data model promise. */
module StructuredProperties {

  import opened Values
  import opened Results
  import opened Seqs
  import opened Structured

  /** `s` holds a copy of each of `cs` at its position, indexed by that position. */
  predicate LaidOut(s: DataStructure, cs: seq<Component>) {
    && |s.components| == |cs|
    && forall i | 0 <= i < |cs| :: s.components[i] == Copy(cs[i]).(index := i)
  }

  /** A structure laid out from components with distinct names is well formed and keyed by those names. */
  lemma LaidOutWellFormed(s: DataStructure, cs: seq<Component>)
    requires LaidOut(s, cs)
    requires NoDuplicates(Names(cs))
    ensures ColumnNames(s) == Names(cs)
    ensures WellFormed(s)
  {
    assert ColumnNames(s) == Names(cs);
  }

  /** Appending a copy of `c`, indexed by its position, to a layout of `cs` lays out `cs + [c]`. */
  lemma LaidOutSnoc(s: DataStructure, cs: seq<Component>, c: Component)
    requires LaidOut(s, cs)
    ensures LaidOut(DataStructure(s.components + [Copy(c).(index := |cs|)]), cs + [c])
  {
  }

  /**
   Built from components with distinct names, a structure holds a copy of
   each component at its insertion position, with that position as its
   index.
   */
  lemma {:induction false} FromComponentsPositions(cs: seq<Component>)
    requires NoDuplicates(Names(cs))
    ensures LaidOut(FromComponents(cs), cs)
  {
    if |cs| > 0 {
      var prefix := cs[..|cs| - 1];
      var c := cs[|cs| - 1];
      NamesSnoc(cs);
      FromComponentsPositions(prefix);
      var acc := FromComponents(prefix);
      LaidOutWellFormed(acc, prefix);
      forall j | 0 <= j < |prefix|
        ensures Names(prefix)[j] != c.name
      {
        assert Names(cs)[j] != Names(cs)[|cs| - 1];
      }
      var c' := Copy(c).(index := Size(acc));
      PutFacts(acc, c');
      LaidOutSnoc(acc, prefix, c);
    } else {
      assert FromComponents(cs) == DataStructure([]);
    }
  }

  /**
   With distinct names, the structure is well formed and its column names are
   the components' names in insertion order.
   */
  lemma FromComponentsWellFormed(cs: seq<Component>)
    requires NoDuplicates(Names(cs))
    ensures WellFormed(FromComponents(cs))
    ensures ColumnNames(FromComponents(cs)) == Names(cs)
  {
    FromComponentsPositions(cs);
    LaidOutWellFormed(FromComponents(cs), cs);
  }

  /** In a structure with unique names, a stored component is found under its name with its own index. */
  lemma IndexOfStored(s: DataStructure, k: nat)
    requires UniqueNames(s)
    requires k < |s.components|
    ensures IndexOf(s, s.components[k].name) == Ok(s.components[k].index)
  {
    FindUnique(s, k);
  }

  /** In a well-formed structure, a name that is found is found at the position of the component of that name. */
  lemma IndexOfFound(s: DataStructure, name: string)
    requires WellFormed(s)
    requires IndexOf(s, name).Ok?
    ensures 0 <= IndexOf(s, name).value < |s.components|
    ensures s.components[IndexOf(s, name).value].name == name
  {
    var k := Find(s.components, name).value;
    IndexOfStored(s, k);
  }

  /**
   In a structure laid out from components with distinct names (as
   `FromComponentsPositions` shows the constructor does), `indexOf(name)`
   maps the i-th inserted name to i and every successful lookup lands in
   [0, n) on the component of that name: a bijection between the names and
   the positions, in construction order.
   */
  lemma IndexOfBijection(s: DataStructure, cs: seq<Component>)
    requires LaidOut(s, cs)
    requires NoDuplicates(Names(cs))
    ensures forall i | 0 <= i < |cs| :: IndexOf(s, cs[i].name) == Ok(i)
    ensures forall name: string | IndexOf(s, name).Ok? ::
      0 <= IndexOf(s, name).value < |cs| && cs[IndexOf(s, name).value].name == name
  {
    LaidOutWellFormed(s, cs);
    forall i | 0 <= i < |cs|
      ensures IndexOf(s, cs[i].name) == Ok(i)
    {
      IndexOfStored(s, i);
    }
    forall name: string | IndexOf(s, name).Ok?
      ensures 0 <= IndexOf(s, name).value < |cs| && cs[IndexOf(s, name).value].name == name
    {
      IndexOfFound(s, name);
    }
  }

  /**
   A repeated name overwrites the earlier entry in place while the new
   component still receives `size()` as its index, which is past the last
   position: here two entries, and the index of "a" is 2.
   */
  lemma RepeatedNameIndexPastEnd()
    ensures var s := FromComponents([
      Component("a", IntegerT, Identifier, 0),
      Component("b", IntegerT, Measure, 0),
      Component("a", StringT, Measure, 0)]);
      && Size(s) == 2
      && IndexOf(s, "a") == Ok(2)
      && FromMap(s, [("a", BoolV(true))]) == Err(IndexOutOfBounds(2))
  {
    var a := Component("a", IntegerT, Identifier, 0);
    var b := Component("b", IntegerT, Measure, 0);
    var a2 := Component("a", StringT, Measure, 0);
    assert [a][..0] == [];
    assert FromComponents([]) == DataStructure([]);
    assert Find([], "a") == None;
    assert Put(DataStructure([]), a) == DataStructure([a]);
    assert FromComponents([a]) == DataStructure([a]);
    assert [a, b][..1] == [a];
    assert Find([a], "b") == None;
    assert FromComponents([a, b]) == DataStructure([a, b.(index := 1)]);
    assert [a, b, a2][..2] == [a, b];
    assert Find([a, b.(index := 1)], "a") == Some(0);
    var s3 := FromComponents([a, b, a2]);
    assert s3 == DataStructure([a2.(index := 2), b.(index := 1)]);
    assert Find(s3.components, "a") == Some(0);
  }

  /**
   Built from a type map and a role map with the same keys, the structure
   lists the type map's keys in iteration order, and the i-th component has
   that key's type and role and index i.
   */
  lemma FromMapsLayout(types: seq<(string, Type)>, roles: map<string, Role>)
    requires NoDuplicates(Keys(types))
    requires KeySet(types) == roles.Keys
    ensures FromMaps(types, roles).Ok?
    ensures var s := FromMaps(types, roles).value;
      && WellFormed(s)
      && ColumnNames(s) == Keys(types)
      && forall i | 0 <= i < |types| :: s.components[i] == Component(types[i].0, types[i].1, roles[types[i].0], i)
  {
    var cs := Described(types, roles);
    assert Names(cs) == Keys(types);
    FromComponentsPositions(cs);
    LaidOutWellFormed(FromComponents(cs), cs);
  }

  /**
   `indexOf(Component)` agrees with `indexOf(name)` on the structure's own
   components, and answers for any other component too, with no membership
   check, even one whose name the structure does not hold.
   */
  lemma IndexOfComponentUnchecked(s: DataStructure, c: Component)
    requires UniqueNames(s)
    ensures c in s.components ==> IndexOf(s, c.name) == Ok(IndexOfComponent(s, c))
    ensures c.name !in ColumnNames(s) ==> IndexOf(s, c.name).Err? && IndexOfComponent(s, c) == c.index
  {
    if c in s.components {
      var k :| 0 <= k < |s.components| && s.components[k] == c;
      FindUnique(s, k);
    }
  }

  /** The first entry carrying a name is the one `Find` returns. */
  lemma FindFirst(cs: seq<Component>, name: string, j: nat)
    requires j < |cs| && cs[j].name == name
    requires forall i | 0 <= i < j :: cs[i].name != name
    ensures Find(cs, name) == Some(j)
  {
    assert Names(cs)[j] == name;
    var r := Find(cs, name);
    assert !(r.value < j) && !(j < r.value);
  }

  /**
   After a put, the component is found under its own name, and every other
   name finds what it found before.
   */
  lemma LookupPut(s: DataStructure, c: Component, name: string)
    ensures Lookup(Put(s, c), name) == if name == c.name then Some(c) else Lookup(s, name)
  {
    var r := Put(s, c);
    match Find(s.components, c.name) {
      case Some(k) =>
        match Find(s.components, name) {
          case None =>
            if name == c.name {
              FindFirst(r.components, name, k);
            } else {
              assert Names(r.components) == Names(s.components);
            }
          case Some(j) =>
            FindFirst(r.components, name, j);
        }
      case None =>
        if name == c.name {
          FindFirst(r.components, name, |s.components|);
        } else {
          match Find(s.components, name) {
            case None =>
              assert name !in Names(r.components);
            case Some(j) =>
              FindFirst(r.components, name, j);
          }
        }
    }
  }

  /** No later component carries the name of the k-th. */
  predicate LastNamed(cs: seq<Component>, k: nat)
    requires k < |cs|
  {
    forall j | k < j < |cs| :: cs[j].name != cs[k].name
  }

  /**
   A repeated name keeps the type and role of its last occurrence: the
   structure holds, under each name, a component equal to the last one of
   that name.
   */
  lemma {:induction false} FromComponentsLast(cs: seq<Component>, k: nat)
    requires k < |cs| && LastNamed(cs, k)
    ensures Lookup(FromComponents(cs), cs[k].name).Some?
    ensures Equal(Lookup(FromComponents(cs), cs[k].name).value, cs[k])
  {
    var prefix := cs[..|cs| - 1];
    var acc := FromComponents(prefix);
    var c := Copy(cs[|cs| - 1]).(index := Size(acc));
    LookupPut(acc, c, cs[k].name);
    if k < |cs| - 1 {
      assert prefix[k] == cs[k];
      FromComponentsLast(prefix, k);
    }
  }

  /** The m-th component's name already occurs earlier in `cs`. */
  predicate Seen(cs: seq<Component>, m: nat)
    requires m < |cs|
  {
    cs[m].name in Names(cs[..m])
  }

  /**
   Putting the m-th component grows the structure by one exactly when its
   name has not been seen before.
   */
  lemma SizeStep(cs: seq<Component>, m: nat)
    requires m < |cs|
    ensures Size(FromComponents(cs[..m + 1])) ==
      Size(FromComponents(cs[..m])) + (if Seen(cs, m) then 0 else 1)
  {
    var prefix := cs[..m + 1];
    assert prefix[..m] == cs[..m];
    var acc := FromComponents(cs[..m]);
    FromComponentsNames(cs[..m]);
    DistinctElements(Names(cs[..m]));
    PutFacts(acc, Copy(cs[m]).(index := Size(acc)));
  }

  /**
   A counter that grows by one at the steps marked `grows` and stays put at
   the others never decreases, and stays put over a stretch exactly when no
   step in it grows.
   */
  lemma {:induction false} CountBetween(w: seq<int>, grows: seq<bool>, a: nat, b: nat)
    requires |w| == |grows| + 1
    requires forall m | 0 <= m < |grows| :: w[m + 1] == w[m] + (if grows[m] then 1 else 0)
    requires a <= b <= |grows|
    ensures w[a] <= w[b]
    ensures w[a] == w[b] <==> forall m | a <= m < b :: !grows[m]
  {
    if a < b {
      CountBetween(w, grows, a, b - 1);
    }
  }

  /**
   Between two prefixes the structure never shrinks, and keeps its size
   exactly when no component in between brings a new name.
   */
  lemma SizeBetween(cs: seq<Component>, a: nat, b: nat)
    requires a <= b <= |cs|
    ensures Size(FromComponents(cs[..a])) <= Size(FromComponents(cs[..b]))
    ensures Size(FromComponents(cs[..a])) == Size(FromComponents(cs[..b])) <==>
      forall m | a <= m < b :: Seen(cs, m)
  {
    var w := seq(|cs| + 1, m requires 0 <= m <= |cs| => Size(FromComponents(cs[..m])));
    var grows := seq(|cs|, m requires 0 <= m < |cs| => !Seen(cs, m));
    forall m | 0 <= m < |grows|
      ensures w[m + 1] == w[m] + (if grows[m] then 1 else 0)
    {
      SizeStep(cs, m);
    }
    CountBetween(w, grows, a, b);
    assert w[a] == Size(FromComponents(cs[..a])) && w[b] == Size(FromComponents(cs[..b]));
    if !forall m | a <= m < b :: Seen(cs, m) {
      var m :| a <= m < b && !Seen(cs, m);
      assert grows[m];
    }
  }

  /**
   The component a name ends up with is a copy of its last occurrence,
   indexed by the structure's size just before that occurrence was put.
   */
  lemma {:induction false} LastOccurrenceIndex(cs: seq<Component>, k: nat)
    requires k < |cs| && LastNamed(cs, k)
    ensures Lookup(FromComponents(cs), cs[k].name) == Some(Copy(cs[k]).(index := Size(FromComponents(cs[..k]))))
    ensures IndexOf(FromComponents(cs), cs[k].name) == Ok(Size(FromComponents(cs[..k])))
  {
    var prefix := cs[..|cs| - 1];
    var acc := FromComponents(prefix);
    var c := Copy(cs[|cs| - 1]).(index := Size(acc));
    LookupPut(acc, c, cs[k].name);
    if k < |cs| - 1 {
      assert prefix[k] == cs[k];
      assert prefix[..k] == cs[..k];
      LastOccurrenceIndex(prefix, k);
    }
  }

  /**
   The index of a repeated name, taken at its last occurrence, never
   exceeds the size. It lies inside the row exactly when a new name comes
   after that occurrence; when none does it equals the size, one past the
   last cell.
   */
  lemma RepeatedNameIndex(cs: seq<Component>, k: nat)
    requires k < |cs| && LastNamed(cs, k)
    requires Seen(cs, k)
    ensures var s := FromComponents(cs);
      && IndexOf(s, cs[k].name).Ok?
      && IndexOf(s, cs[k].name).value <= Size(s)
      && (IndexOf(s, cs[k].name).value < Size(s) <==> exists m | k < m < |cs| :: !Seen(cs, m))
      && ((forall m | k < m < |cs| :: Seen(cs, m)) ==> IndexOf(s, cs[k].name) == Ok(Size(s)))
  {
    LastOccurrenceIndex(cs, k);
    SizeStep(cs, k);
    SizeBetween(cs, k + 1, |cs|);
    assert cs[..|cs|] == cs;
  }

  /**
   A repeated name shares its index with the first new name that follows
   its last occurrence, so reading or writing either reaches the same cell.
   */
  lemma RepeatedNameAliasesNext(cs: seq<Component>, k: nat, j: nat)
    requires k < j < |cs|
    requires LastNamed(cs, k) && LastNamed(cs, j)
    requires Seen(cs, k)
    requires !Seen(cs, j)
    requires forall m | k < m < j :: Seen(cs, m)
    ensures cs[k].name != cs[j].name
    ensures var s := FromComponents(cs);
      && IndexOf(s, cs[k].name).Ok?
      && IndexOf(s, cs[k].name) == IndexOf(s, cs[j].name)
  {
    assert cs[..j][k] == cs[k];
    LastOccurrenceIndex(cs, k);
    LastOccurrenceIndex(cs, j);
    SizeStep(cs, k);
    SizeBetween(cs, k + 1, j);
  }

  /** From a, a again and then b: the second "a" replaces the first in place, and both get index 1. */
  lemma AliasLayout(a: Component, a2: Component, b: Component)
    requires a.name == a2.name == "a" && b.name == "b"
    ensures FromComponents([a, a2, b]) == DataStructure([Copy(a2).(index := 1), Copy(b).(index := 1)])
  {
    assert [a][..0] == [];
    assert FromComponents([a]) == DataStructure([Copy(a)]);
    assert [a, a2][..1] == [a];
    assert Find([Copy(a)], "a") == Some(0);
    assert FromComponents([a, a2]) == DataStructure([Copy(a2).(index := 1)]);
    assert [a, a2, b][..2] == [a, a2];
    assert Find([Copy(a2).(index := 1)], "b") == None;
  }

  /**
   Built from a, a again and then b, the structure has two columns and both
   names map to index 1, so setting "a" writes the cell "b" reads.
   */
  lemma RepeatedNameAliasExample()
    ensures var s := FromComponents([
      Component("a", IntegerT, Identifier, 0),
      Component("a", StringT, Measure, 0),
      Component("b", IntegerT, Measure, 0)]);
      && Size(s) == 2
      && IndexOf(s, "a") == Ok(1)
      && IndexOf(s, "b") == Ok(1)
      && FromMap(s, [("a", BoolV(true))]) == Ok(DataPoint(s, [Null, BoolV(true)]))
      && Get(FromMap(s, [("a", BoolV(true))]).value, "b") == Ok(BoolV(true))
  {
    var a := Component("a", IntegerT, Identifier, 0);
    var a2 := Component("a", StringT, Measure, 0);
    var b := Component("b", IntegerT, Measure, 0);
    AliasLayout(a, a2, b);
    var s := FromComponents([a, a2, b]);
    assert Find(s.components, "a") == Some(0);
    assert Find(s.components, "b") == Some(1);
    assert IndexOf(s, "a") == Ok(1);
    assert IndexOf(s, "b") == Ok(1);
    var p := DataPoint(s, Nulls(2));
    assert p.cells == [Null, Null];
    assert p.cells[1 := BoolV(true)] == [Null, BoolV(true)];
    var q := DataPoint(s, [Null, BoolV(true)]);
    assert Set(p, "a", BoolV(true)) == Ok(q);
    assert SetAll(p, [("a", BoolV(true))]) == SetAll(q, []);
  }

  /**
   A row built from a collection reads, under the k-th column of a
   well-formed structure, the k-th value; when fewer values than columns
   are given, the read of a column past them fails as out of bounds.
   */
  lemma FromCollectionCells(s: DataStructure, values: seq<Value>, k: nat)
    requires WellFormed(s) && k < Size(s)
    ensures var p, n := FromCollection(s, values), ColumnNames(s)[k];
      && (k < |values| ==> Get(p, n) == Ok(values[k]))
      && (k >= |values| ==> Get(p, n) == Err(IndexOutOfBounds(k)))
  {
    IndexOfStored(s, k);
  }

  /** The value the last entry named `column` assigns, or `default` if none does. */
  function EntryValue(entries: seq<(string, Value)>, column: string, default: Value): Value
    decreases |entries|
  {
    if |entries| == 0 then default
    else EntryValue(entries[1..], column, if entries[0].0 == column then entries[0].1 else default)
  }

  /** With distinct keys, `EntryValue` is the value stored under the key, or the default. */
  lemma {:induction false} EntryValueOfMap(entries: seq<(string, Value)>, column: string, default: Value)
    requires NoDuplicates(Keys(entries))
    ensures column !in KeySet(entries) ==> EntryValue(entries, column, default) == default
    ensures forall i | 0 <= i < |entries| && entries[i].0 == column :: EntryValue(entries, column, default) == entries[i].1
    decreases |entries|
  {
    if |entries| > 0 {
      var rest := entries[1..];
      assert Keys(rest) == Keys(entries)[1..];
      assert KeySet(rest) <= KeySet(entries) by {
        forall k | k in KeySet(rest) ensures k in KeySet(entries) {
          var j :| 0 <= j < |rest| && rest[j].0 == k;
          assert entries[j + 1].0 == k;
        }
      }
      var d := if entries[0].0 == column then entries[0].1 else default;
      EntryValueOfMap(rest, column, d);
      if entries[0].0 == column {
        forall j | 0 <= j < |rest|
          ensures rest[j].0 != column
        {
          assert Keys(entries)[0] != Keys(entries)[j + 1];
        }
        assert column !in KeySet(rest);
      }
      forall i | 0 <= i < |entries| && entries[i].0 == column
        ensures EntryValue(entries, column, default) == entries[i].1
      {
        if i > 0 {
          assert rest[i - 1] == entries[i];
          assert Keys(entries)[0] != Keys(entries)[i];
        }
      }
    }
  }

  /** A row that fits its well-formed structure: one cell per column. */
  predicate Fits(p: DataPoint) {
    WellFormed(p.structure) && |p.cells| == Size(p.structure)
  }

  /**
   `set(column, v)` then `get(column)` gives back v, every other column keeps
   its value, and the row keeps its length; an unknown column fails.
   */
  lemma SetThenGet(p: DataPoint, column: string, v: Value)
    requires Fits(p)
    ensures column !in ColumnNames(p.structure) ==> Set(p, column, v) == Err(UnknownColumn(column))
    ensures column in ColumnNames(p.structure) ==>
      && Set(p, column, v).Ok?
      && Fits(Set(p, column, v).value)
      && Set(p, column, v).value.structure == p.structure
      && Get(Set(p, column, v).value, column) == Ok(v)
      && forall other | other != column :: Get(Set(p, column, v).value, other) == Get(p, other)
  {
    var s := p.structure;
    if column in ColumnNames(s) {
      var k := Find(s.components, column).value;
      var q := Set(p, column, v).value;
      forall other | other != column
        ensures Get(q, other) == Get(p, other)
      {
        match Find(s.components, other)
        case None =>
        case Some(j) =>
          assert j != k;
      }
    }
  }

  /**
   Setting a sequence of entries on a fitting row succeeds exactly when every
   key is a column; then each cell holds the last value given for its column,
   or its old value.
   */
  lemma {:induction false} SetAllCells(p: DataPoint, entries: seq<(string, Value)>)
    requires Fits(p)
    ensures SetAll(p, entries).Ok? <==> forall i | 0 <= i < |entries| :: entries[i].0 in ColumnNames(p.structure)
    ensures SetAll(p, entries).Ok? ==>
      var q := SetAll(p, entries).value;
      && q.structure == p.structure
      && |q.cells| == |p.cells|
      && forall j | 0 <= j < |p.cells| :: q.cells[j] == EntryValue(entries, ColumnNames(p.structure)[j], p.cells[j])
    decreases |entries|
  {
    if |entries| > 0 {
      var s := p.structure;
      var (column, v) := entries[0];
      SetThenGet(p, column, v);
      if column in ColumnNames(s) {
        var q := Set(p, column, v).value;
        var k := Find(s.components, column).value;
        SetAllCells(q, entries[1..]);
        assert SetAll(p, entries) == SetAll(q, entries[1..]);
        forall j | 0 <= j < |p.cells|
          ensures q.cells[j] == (if ColumnNames(s)[j] == column then v else p.cells[j])
        {
          if ColumnNames(s)[j] == column {
            FindUnique(s, j);
          }
        }
        if SetAll(q, entries[1..]).Ok? {
          var r := SetAll(q, entries[1..]).value;
          forall j | 0 <= j < |p.cells|
            ensures r.cells[j] == EntryValue(entries, ColumnNames(s)[j], p.cells[j])
          {
            assert EntryValue(entries, ColumnNames(s)[j], p.cells[j])
              == EntryValue(entries[1..], ColumnNames(s)[j], q.cells[j]);
          }
        }
        KeysAmong(entries, ColumnNames(s));
      }
    }
  }

  /** Every key is among `names` exactly when the first is and every later one is. */
  lemma KeysAmong(entries: seq<(string, Value)>, names: seq<string>)
    requires |entries| > 0
    ensures (forall i | 0 <= i < |entries| :: entries[i].0 in names)
      <==> entries[0].0 in names && forall i | 0 <= i < |entries[1..]| :: entries[1..][i].0 in names
  {
    assert forall i | 0 <= i < |entries[1..]| :: entries[1..][i] == entries[i + 1];
  }

  /**
   Building a row from a name-to-value map fails exactly when some key is
   not a column of the structure, and then with an unknown-column error.
   */
  lemma FromMapFails(s: DataStructure, entries: seq<(string, Value)>)
    requires WellFormed(s)
    ensures FromMap(s, entries).Ok? <==> forall i | 0 <= i < |entries| :: entries[i].0 in ColumnNames(s)
    ensures FromMap(s, entries).Err? ==> FromMap(s, entries).error.UnknownColumn?
  {
    SetAllCells(DataPoint(s, Nulls(Size(s))), entries);
    SetAllError(DataPoint(s, Nulls(Size(s))), entries);
  }

  /**
   `set(column, v)` can write through `column`: the name is a column and
   the index it maps to is a position of a row of `s`.
   */
  predicate Writable(s: DataStructure, column: string) {
    IndexOf(s, column).Ok? && 0 <= IndexOf(s, column).value < Size(s)
  }

  /**
   On any structure, repeated names included: setting entries in turn on a
   row of `size()` cells succeeds exactly when every key is writable, and a
   failure is an unknown column or an index outside the row.
   */
  lemma {:induction false} SetAllOutcome(p: DataPoint, entries: seq<(string, Value)>)
    requires |p.cells| == Size(p.structure)
    ensures SetAll(p, entries).Ok? <==> forall i | 0 <= i < |entries| :: Writable(p.structure, entries[i].0)
    ensures SetAll(p, entries).Err? ==> SetAll(p, entries).error.UnknownColumn? || SetAll(p, entries).error.IndexOutOfBounds?
    decreases |entries|
  {
    if |entries| > 0 {
      var rest := entries[1..];
      assert forall i | 0 <= i < |rest| :: rest[i] == entries[i + 1];
      var r := Set(p, entries[0].0, entries[0].1);
      if r.Ok? {
        SetAllOutcome(r.value, rest);
      }
    }
  }

  /**
   Building a row from a map, on any structure: it succeeds exactly when
   every key is writable, so a known column whose index lies past the row
   fails too, with an index error.
   */
  lemma FromMapOutcome(s: DataStructure, entries: seq<(string, Value)>)
    ensures FromMap(s, entries).Ok? <==> forall i | 0 <= i < |entries| :: Writable(s, entries[i].0)
    ensures FromMap(s, entries).Err? ==> FromMap(s, entries).error.UnknownColumn? || FromMap(s, entries).error.IndexOutOfBounds?
  {
    SetAllOutcome(DataPoint(s, Nulls(Size(s))), entries);
  }

  /** A failing `SetAll` on a fitting row fails with an unknown column. */
  lemma {:induction false} SetAllError(p: DataPoint, entries: seq<(string, Value)>)
    requires Fits(p)
    ensures SetAll(p, entries).Err? ==> SetAll(p, entries).error.UnknownColumn?
    decreases |entries|
  {
    if |entries| > 0 {
      SetThenGet(p, entries[0].0, entries[0].1);
      if entries[0].0 in ColumnNames(p.structure) {
        SetAllError(Set(p, entries[0].0, entries[0].1).value, entries[1..]);
      }
    }
  }

  /**
   A row built from a name-to-value map has one cell per column, and reading
   any column back by name gives the value the map supplies for it, or null.
   */
  lemma FromMapCells(s: DataStructure, entries: seq<(string, Value)>)
    requires WellFormed(s)
    requires FromMap(s, entries).Ok?
    ensures Fits(FromMap(s, entries).value)
    ensures FromMap(s, entries).value.structure == s
    ensures forall i | 0 <= i < Size(s) :: FromMap(s, entries).value.cells[i] == EntryValue(entries, ColumnNames(s)[i], Null)
    ensures forall column | column in ColumnNames(s) :: Get(FromMap(s, entries).value, column) == Ok(EntryValue(entries, column, Null))
  {
    SetAllCells(DataPoint(s, Nulls(Size(s))), entries);
    var p := FromMap(s, entries).value;
    forall column | column in ColumnNames(s)
      ensures Get(p, column) == Ok(EntryValue(entries, column, Null))
    {
      var k := Find(s.components, column).value;
      IndexOfStored(s, k);
    }
  }

  /**
   The round trip of a row built from a map (whose keys are distinct, as in
   any Java map): reading back every supplied key gives its value, and
   every other column reads as null.
   */
  lemma FromMapRoundTrip(s: DataStructure, entries: seq<(string, Value)>)
    requires WellFormed(s)
    requires NoDuplicates(Keys(entries))
    requires FromMap(s, entries).Ok?
    ensures forall i | 0 <= i < |entries| :: Get(FromMap(s, entries).value, entries[i].0) == Ok(entries[i].1)
    ensures forall column | column in ColumnNames(s) && column !in KeySet(entries) :: Get(FromMap(s, entries).value, column) == Ok(Null)
  {
    FromMapCells(s, entries);
    FromMapFails(s, entries);
    forall column | column in ColumnNames(s)
      ensures Get(FromMap(s, entries).value, column) == Ok(if column in KeySet(entries) then EntryValue(entries, column, Null) else Null)
    {
      EntryValueOfMap(entries, column, Null);
    }
    forall i | 0 <= i < |entries|
      ensures EntryValue(entries, entries[i].0, Null) == entries[i].1
    {
      EntryValueOfMap(entries, entries[i].0, Null);
    }
  }
}
