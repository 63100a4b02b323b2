/**
 The row/column data model: components, data structures and data points.

 A `DataStructure` is an insertion-ordered map from column name to
 `Component` (a Java `LinkedHashMap`); here it is the sequence of its
 entries in insertion order, the key of each entry being the component's
 name. A `DataPoint` is a list of cells addressed through its structure.
 */
module Structured {

  import opened Values
  import opened Results
  import opened Seqs

  /** A column: name, type and role, plus the slot its structure assigns it. */
  datatype Component = Component(name: string, ty: Type, role: Role, index: int)

  /**
   `Component.equals`: name, type and role are compared and the index is not;
   so two components are equal exactly when they coincide once their indices
   are erased. The hash code covers the same three fields.
   */
  predicate Equal(a: Component, b: Component)
    ensures Equal(a, b) <==> a.(index := 0) == b.(index := 0)
  {
    a.name == b.name && a.ty == b.ty && a.role == b.role
  }

  /** The copy constructor: name, type and role are copied, the index is left at Java's default. */
  function Copy(c: Component): (r: Component)
    ensures Equal(r, c)
    ensures r.index == 0
  {
    Component(c.name, c.ty, c.role, 0)
  }

  datatype DataStructure = DataStructure(components: seq<Component>)

  function Size(s: DataStructure): nat {
    |s.components|
  }

  function Names(cs: seq<Component>): (ns: seq<string>)
    ensures |ns| == |cs|
    ensures forall i | 0 <= i < |cs| :: ns[i] == cs[i].name
  {
    seq(|cs|, i requires 0 <= i < |cs| => cs[i].name)
  }

  /** `getColumnNames`: the keys of the structure, in insertion order. */
  function ColumnNames(s: DataStructure): seq<string> {
    Names(s.components)
  }

  /** No two entries share a name: the structure is a map. */
  predicate UniqueNames(s: DataStructure) {
    NoDuplicates(ColumnNames(s))
  }

  /** Every component's index is its position. */
  predicate WellIndexed(s: DataStructure) {
    forall i | 0 <= i < |s.components| :: s.components[i].index == i
  }

  predicate WellFormed(s: DataStructure) {
    UniqueNames(s) && WellIndexed(s)
  }

  /** The position of the first entry named `name`. */
  function Find(cs: seq<Component>, name: string): (r: Option<nat>)
    ensures r.None? <==> name !in Names(cs)
    ensures r.Some? ==> r.value < |cs| && cs[r.value].name == name
    ensures r.Some? ==> forall j | 0 <= j < r.value :: cs[j].name != name
  {
    if |cs| == 0 then None
    else if cs[0].name == name then Some(0)
    else
      match Find(cs[1..], name)
      case None =>
        assert Names(cs) == [cs[0].name] + Names(cs[1..]);
        None
      case Some(k) => Some(k + 1)
  }

  /** In a structure whose names are unique, the entry named `name` is at exactly one position. */
  lemma FindUnique(s: DataStructure, k: nat)
    requires UniqueNames(s)
    requires k < |s.components|
    ensures Find(s.components, s.components[k].name) == Some(k)
  {
    var r := Find(s.components, s.components[k].name);
    assert ColumnNames(s)[k] == s.components[k].name;
    assert ColumnNames(s)[r.value] == s.components[r.value].name;
  }

  /** The component stored under `name`, if any (`LinkedHashMap.get`). */
  function Lookup(s: DataStructure, name: string): (r: Option<Component>)
    ensures r.Some? <==> name in ColumnNames(s)
    ensures r.Some? ==> r.value.name == name
    ensures r.Some? ==> r.value in s.components
    ensures UniqueNames(s) ==> forall k | 0 <= k < |s.components| && s.components[k].name == name :: r == Some(s.components[k])
  {
    match Find(s.components, name)
    case None => None
    case Some(k) => Some(s.components[k])
  }

  /**
   `LinkedHashMap.put` keyed by the component's name: an existing entry of
   that name is replaced where it stands, otherwise the component is
   appended.
   */
  function Put(s: DataStructure, c: Component): DataStructure {
    match Find(s.components, c.name)
    case Some(k) => DataStructure(s.components[k := c])
    case None => DataStructure(s.components + [c])
  }

  /**
   A put keeps the key order, appending the name only if it is new; it
   keeps the names unique; and it leaves every entry of another name alone.
   */
  lemma PutFacts(s: DataStructure, c: Component)
    ensures var r := Put(s, c);
      && ColumnNames(r) == (if c.name in ColumnNames(s) then ColumnNames(s) else ColumnNames(s) + [c.name])
      && (UniqueNames(s) ==> UniqueNames(r))
      && c in r.components
      && (c.name !in ColumnNames(s) ==> r.components == s.components + [c])
      && (c.name in ColumnNames(s) ==> |r.components| == |s.components|)
      && forall i | 0 <= i < |s.components| && s.components[i].name != c.name :: r.components[i] == s.components[i]
  {
    var r := Put(s, c);
    match Find(s.components, c.name)
    case Some(k) =>
      assert ColumnNames(r) == ColumnNames(s);
    case None =>
      assert ColumnNames(r) == ColumnNames(s) + [c.name];
  }

  /**
   `DataStructure(Collection<Component>)`: each component is copied, given
   the index `size()` (the number of entries before it is put) and put under
   its name. The keys are the input's names in first-seen order. A repeated
   name replaces the earlier entry in place, and its new index is still the
   size at that moment.
   */
  function FromComponents(cs: seq<Component>): DataStructure
  {
    if |cs| == 0 then DataStructure([])
    else
      var acc := FromComponents(cs[..|cs| - 1]);
      Put(acc, Copy(cs[|cs| - 1]).(index := Size(acc)))
  }

  /**
   Whatever the input, the built structure is a map (no name twice) whose
   keys are the components' names in first-seen order.
   */
  lemma {:induction false} FromComponentsNames(cs: seq<Component>)
    ensures UniqueNames(FromComponents(cs))
    ensures ColumnNames(FromComponents(cs)) == Distinct(Names(cs))
  {
    if |cs| > 0 {
      var prefix := cs[..|cs| - 1];
      var c := cs[|cs| - 1];
      FromComponentsNames(prefix);
      var acc := FromComponents(prefix);
      PutFacts(acc, Copy(c).(index := Size(acc)));
      NamesSnoc(cs);
      DistinctSnoc(Names(prefix), c.name);
      DistinctElements(Names(prefix));
    }
  }

  /** The names of a non-empty list are those of all but its last component, then the last one's. */
  lemma NamesSnoc(cs: seq<Component>)
    requires |cs| > 0
    ensures Names(cs) == Names(cs[..|cs| - 1]) + [cs[|cs| - 1].name]
  {
    var prefix := cs[..|cs| - 1];
    forall i | 0 <= i < |cs|
      ensures Names(cs)[i] == (Names(prefix) + [cs[|cs| - 1].name])[i]
    {
      if i < |prefix| {
        assert prefix[i] == cs[i];
      }
    }
  }

  /** Turns a Java map of types plus a role map into the components it describes, in the type map's order. */
  function Described(types: seq<(string, Type)>, roles: map<string, Role>): (cs: seq<Component>)
    requires forall i | 0 <= i < |types| :: types[i].0 in roles
    ensures |cs| == |types|
    ensures forall i | 0 <= i < |types| :: cs[i] == Component(types[i].0, types[i].1, roles[types[i].0], 0)
  {
    seq(|types|, i requires 0 <= i < |types| => Component(types[i].0, types[i].1, roles[types[i].0], 0))
  }

  function Keys<V>(entries: seq<(string, V)>): (ks: seq<string>)
    ensures |ks| == |entries|
    ensures forall i | 0 <= i < |entries| :: ks[i] == entries[i].0
  {
    seq(|entries|, i requires 0 <= i < |entries| => entries[i].0)
  }

  function KeySet<V>(entries: seq<(string, V)>): set<string> {
    set i | 0 <= i < |entries| :: entries[i].0
  }

  /**
   `DataStructure(Map types, Map roles)`. The type map is given as its
   entries in iteration order (keys distinct, as in any Java map). Differing
   key sets are an argument error; otherwise every column becomes a
   component at its iteration position, with that position as its index.
   */
  function FromMaps(types: seq<(string, Type)>, roles: map<string, Role>): (r: Result<DataStructure>)
    requires NoDuplicates(Keys(types))
    ensures r.Err? <==> KeySet(types) != roles.Keys
    ensures r.Err? ==> r.error == KeySetsDiffer
  {
    if KeySet(types) != roles.Keys then Err(KeySetsDiffer)
    else Ok(FromComponents(Described(types, roles)))
  }

  /** `indexOf(String)`: the stored component's index; an unknown name fails (the lookup yields null). */
  function IndexOf(s: DataStructure, name: string): (r: Result<int>)
    ensures r.Err? <==> name !in ColumnNames(s)
    ensures r.Err? ==> r.error == UnknownColumn(name)
  {
    match Lookup(s, name)
    case None => Err(UnknownColumn(name))
    case Some(c) => Ok(c.index)
  }

  /** `indexOf(Component)`: the component's own index, whether or not it belongs to `s`. */
  function IndexOfComponent(s: DataStructure, c: Component): int {
    c.index
  }

  /** A row: its structure and its cells. */
  datatype DataPoint = DataPoint(structure: DataStructure, cells: seq<Value>)

  function Nulls(n: nat): (vs: seq<Value>)
    ensures |vs| == n
    ensures forall i | 0 <= i < n :: vs[i] == Null
  {
    seq(n, _ => Null)
  }

  /** `ArrayList.get(int)`. */
  function GetAt(p: DataPoint, i: int): (r: Result<Value>)
    ensures r.Ok? <==> 0 <= i < |p.cells|
    ensures r.Ok? ==> r.value == p.cells[i]
  {
    if 0 <= i < |p.cells| then Ok(p.cells[i]) else Err(IndexOutOfBounds(i))
  }

  /** `ArrayList.set(int, Object)`, returning the updated row. */
  function SetAt(p: DataPoint, i: int, v: Value): (r: Result<DataPoint>)
    ensures r.Ok? <==> 0 <= i < |p.cells|
    ensures r.Ok? ==> r.value.structure == p.structure && |r.value.cells| == |p.cells|
    ensures r.Ok? ==> r.value.cells[i] == v
    ensures r.Ok? ==> forall j | 0 <= j < |p.cells| && j != i :: r.value.cells[j] == p.cells[j]
  {
    if 0 <= i < |p.cells| then Ok(p.(cells := p.cells[i := v])) else Err(IndexOutOfBounds(i))
  }

  /** `get(String)`: the cell at the column's index. */
  function Get(p: DataPoint, column: string): Result<Value> {
    var i :- IndexOf(p.structure, column);
    GetAt(p, i)
  }

  /** `set(String, Object)`: writes the cell at the column's index. */
  function Set(p: DataPoint, column: string, v: Value): Result<DataPoint> {
    var i :- IndexOf(p.structure, column);
    SetAt(p, i, v)
  }

  /** Sets every entry in turn, stopping at the first failure. */
  function SetAll(p: DataPoint, entries: seq<(string, Value)>): Result<DataPoint>
    decreases |entries|
  {
    if |entries| == 0 then Ok(p)
    else
      var q :- Set(p, entries[0].0, entries[0].1);
      SetAll(q, entries[1..])
  }

  /**
   `DataPoint(DataStructure, Map)`: a row of `size()` nulls, then every map
   entry (in iteration order) set by column name.
   */
  function FromMap(s: DataStructure, entries: seq<(string, Value)>): Result<DataPoint> {
    SetAll(DataPoint(s, Nulls(Size(s))), entries)
  }

  /** `DataPoint(DataStructure, Collection)`: the values as they come, with no check against the structure. */
  function FromCollection(s: DataStructure, values: seq<Value>): (p: DataPoint)
    ensures p.structure == s
    ensures p.cells == values
  {
    DataPoint(s, values)
  }
}
