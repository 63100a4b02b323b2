# VTL expression core and dataset model in Dafny

This project models two parts of the Java VTL engine together.

The first part is the two-phase evaluation of VTL expressions. A parsed node is first *built* into a typed expression, and type errors surface at that point. The typed expression is then *resolved* against a variable context. The model covers:

- the dispatcher (`ExpressionVisitor`), which routes each node kind to its builder and lets parentheses through;
- the conditional builder (`IfVisitor`);
- the Boolean builder (`BooleanVisitor`);
- the multiplication and division builder (`ArithmeticVisitor`);
- the union call of the set-function family;
- the rename and keep clauses, which take their result structure from the processing engine.

The second part is the row and column model of `Structured.java`:

- `Component`: equality that ignores the index, and the copy constructor;
- `DataStructure`: both constructors, and both forms of `indexOf`;
- `DataPoint`: both constructors, and `get`/`set` by column name.

It also covers the structure-level contracts of the processing engine's `calc`, `rename`, `project` and `union`. The row semantics of union come from the union tests, because the engine's implementation is not part of this model.

Modules:

| file | module | contents |
|---|---|---|
| `results.dfy` | `Results` | `Result`/`Option` and the error kinds |
| `values.dfy` | `Values` | static types, roles, run-time values with an explicit `Null`, 64-bit longs, symbolic doubles |
| `seqs.dfy` | `Seqs` | first-seen de-duplication and concatenation of sequences |
| `structured.dfy` | `Structured` | `Component`, `DataStructure`, `DataPoint` |
| `datasets.dfy` | `Datasets` | datasets, structure equality (`Compatible`), rows read as maps |
| `engine.dfy` | `Engine` | calc, rename, project and union |
| `syntax.dfy` | `Syntax` | parsed nodes, with operator tags and function families |
| `typed.dfy` | `Typed` | typed expressions, their static types, and `Resolve` |
| `visitors.dfy` | `Visitors` | `Build` and the individual builders |

The lemma modules are `StructuredProperties`, `EngineProperties`, `DispatchProperties`, `IfProperties`, `BooleanProperties`, `ArithmeticProperties` and `Preservation`.

How the Java is represented:

- **Java classes.** `Class<?>` objects become the enumeration `Type`. `NullT` stands for `Object.class`, the type of a null constant. The model checks a `(Boolean)`, `(Long)` or `clazz.cast` cast and returns `ClassCast` when it fails.
- **Unboxing.** Unboxing a null returns `NullUnboxing`. Java's `&&` and `||` skip unboxing the right operand when the left one decides the result, and the model does the same.
- **Exceptions.** A thrown exception becomes an `Err` value.
- **Builders outside this model** fail with `OutsideModel` and the builder's name:
  - comparison;
  - unary;
  - arithmetic-or-concat;
  - the string, comparison, numeric, distance and join function families;
  - clauses other than rename and keep.

## Behaviour of the code

The first bullets below follow from the code itself. The last two are the model's reading of the union tests, since the union code is not part of this model.

- **Boolean operators.** AND, OR and XOR are Java's operators on unboxed `Boolean`s:
  - a null operand fails to unbox, except where `&&`/`||` short-circuit past a null right operand;
  - a non-Boolean operand fails its cast;
  - the builder does not check the operands' types at all.
- **Multiplication and division.** A null operand fails to unbox, so the expression fails rather than yielding null.
- **A repeated component name.** `DataStructure(Collection)` replaces the earlier entry in place but gives the new component `size()` as its index. That index is the index of the next new column, or one past the last cell when no new column follows.
- **Conditional with a statically null condition.** The result is a Boolean-typed null, and the branches are never built.
- **Union removes duplicates.** The union tests expect a row found in several operands only once, and the model keeps each distinct row once.
- **Union compatibility.** The incompatible-structure test accepts an operand whose columns are reordered and rejects one with a renamed column. The model reads compatibility as `DataStructure.equals`, which is `LinkedHashMap` equality over `Component.equals`, so column order and indices play no part.

## Operations and the lemmas about them

Several operations are plain functions whose properties are stated by lemmas. Each row of the "## Model" table below names the lemma.

| operation | Java | lemmas |
|---|---|---|
| `Structured.FromComponents` | `DataStructure(Collection)` | `FromComponentsNames`, `FromComponentsPositions`, `FromComponentsLast`, `LastOccurrenceIndex`, `RepeatedNameIndex` |
| `Structured.FromMap` | `DataPoint(DataStructure, Map)` | `FromMapOutcome`, `FromMapFails`, `FromMapCells`, `FromMapRoundTrip` |
| `Structured.FromCollection` | `DataPoint(DataStructure, Collection)` | `FromCollectionCells` |
| `Structured.Get` | `DataPoint.get(String)` | `GetColumn`, `SetThenGet` |
| `Structured.Set` | `DataPoint.set(String, Object)` | `SetThenGet` |
| `Engine.Rename` | `executeRename` | `RenameRows`, `Preservation.RenameCheckedOnce` |
| `Engine.Project` | `executeProject` | `ProjectShape`, `ProjectRowsKept` |
| `Visitors.Build` | `ExpressionVisitor` | `ParenthesesTransparent`, `UnmodelledRoutes`, `Preservation.BuildWellTyped` |
| `Visitors.BuildIf` | `IfVisitor.visitIfExpr` | `IfStaticNull`, `IfConditionNotBoolean`, `IfBranchTyping`, `IfBranchFails` |
| `Visitors.BuildBoolean` | `BooleanVisitor.visitBooleanExpr` | `BuildBooleanShape`, `NoOperandTypeCheck` |
| `Visitors.BuildArithmetic` | `ArithmeticVisitor` | `OperatorCheckedFirst`, `LeftCheckedBeforeRight`, `ArithmeticTyping` |
| `Typed.Resolve` | `ResolvableExpression.resolve` | `Preservation.ResolvePreservesType`, `Preservation.IfProgress`, `IfSelects`, `BooleanTruthTables`, `LongProduct` |

## Model

| member | source | states |
|---|---|---|
| Structured.Equal | vtl-model/src/main/java/fr/insee/vtl/model/Structured.java:90-98 | Two components are equal exactly when name, type and role agree; the index plays no part |
| Structured.Copy | vtl-model/src/main/java/fr/insee/vtl/model/Structured.java:49-53 | The copy equals the original in name, type and role, and its index is reset to Java's default 0 |
| Structured.FromComponentsNames | vtl-model/src/main/java/fr/insee/vtl/model/Structured.java:128-135 | Whatever the input, the built structure has no name twice, and its keys are the components' names in first-seen order |
| StructuredProperties.FromComponentsPositions | vtl-model/src/main/java/fr/insee/vtl/model/Structured.java:128-135 | With distinct names, position i holds a copy of the i-th component with index i |
| StructuredProperties.FromComponentsWellFormed | vtl-model/src/main/java/fr/insee/vtl/model/Structured.java:128-135 | With distinct names, the structure is well formed and `getColumnNames` lists the names in insertion order |
| StructuredProperties.FromComponentsLast | vtl-model/src/main/java/fr/insee/vtl/model/Structured.java:130-134 | A repeated name keeps the type and role of its last occurrence |
| StructuredProperties.RepeatedNameIndexPastEnd | vtl-model/src/main/java/fr/insee/vtl/model/Structured.java:130-134 | Example: from a, b and a again, the structure has two columns and "a" gets index 2, past the last cell, so a row built from a map cannot set it |
| StructuredProperties.SizeBetween | vtl-model/src/main/java/fr/insee/vtl/model/Structured.java:128-135 | Between two prefixes of the component list, the structure never shrinks, and keeps its size exactly when no component in between brings a new name |
| StructuredProperties.LastOccurrenceIndex | vtl-model/src/main/java/fr/insee/vtl/model/Structured.java:130-134 | A name ends up with a copy of its last occurrence, whose index is the structure's size just before that occurrence was put |
| StructuredProperties.RepeatedNameIndex | vtl-model/src/main/java/fr/insee/vtl/model/Structured.java:128-139 | A repeated name's index is at most the size. It lies inside the row exactly when a new name follows its last occurrence, and otherwise equals the size |
| StructuredProperties.RepeatedNameAliasesNext | vtl-model/src/main/java/fr/insee/vtl/model/Structured.java:128-139 | A repeated name has the same index as the first new name after its last occurrence |
| StructuredProperties.RepeatedNameAliasExample | vtl-model/src/main/java/fr/insee/vtl/model/Structured.java:128-178 | Example: from a, a again and b, both names get index 1, so a row built from a map setting "a" reads that value under "b" |
| Structured.FromMaps | vtl-model/src/main/java/fr/insee/vtl/model/Structured.java:116-120 | Building from a type map and a role map fails exactly when their key sets differ, and with an argument error |
| StructuredProperties.FromMapsLayout | vtl-model/src/main/java/fr/insee/vtl/model/Structured.java:116-126 | With equal key sets, the i-th column is the type map's i-th key, with its type, its role and index i |
| Structured.IndexOf | vtl-model/src/main/java/fr/insee/vtl/model/Structured.java:137-139 | `indexOf(name)` fails exactly when the name is not a column |
| StructuredProperties.IndexOfBijection | vtl-model/src/main/java/fr/insee/vtl/model/Structured.java:121-139 | With distinct names, `indexOf` maps the i-th inserted name to i, and every successful lookup lands on the position of a component with that name: a bijection onto the positions |
| StructuredProperties.IndexOfComponentUnchecked | vtl-model/src/main/java/fr/insee/vtl/model/Structured.java:141-143 | `indexOf(component)` agrees with `indexOf(name)` for a stored component. For a component of unknown name it still returns that component's own index, while the lookup by name fails |
| Structured.Find | vtl-model/src/main/java/fr/insee/vtl/model/Structured.java:137-139 | The map lookup finds a name exactly when it is present, at its first position |
| Structured.Lookup | vtl-model/src/main/java/fr/insee/vtl/model/Structured.java:137-139 | `get(name)` on the structure yields a component exactly when the name is a column. That component carries the name and is one of the structure's entries, and with unique names it is the only entry of that name |
| Structured.PutFacts | vtl-model/src/main/java/fr/insee/vtl/model/Structured.java:130-134 | A `put` keeps the key order and appends the name only if it is new. It keeps names unique and leaves entries of other names untouched |
| StructuredProperties.LookupPut | vtl-model/src/main/java/fr/insee/vtl/model/Structured.java:130-134 | After a `put`, the component is found under its name, and every other name finds what it found before |
| Structured.GetAt | vtl-model/src/main/java/fr/insee/vtl/model/Structured.java:172-174 | Reading cell i succeeds exactly for an index inside the row, and yields that cell |
| Structured.SetAt | vtl-model/src/main/java/fr/insee/vtl/model/Structured.java:176-178 | Writing cell i succeeds exactly inside the row; cell i gets the value and every other cell is kept |
| StructuredProperties.SetThenGet | vtl-model/src/main/java/fr/insee/vtl/model/Structured.java:172-178 | On a fitting row, `set(column, v)` then `get(column)` gives v, and every other column reads as before. An unknown column fails |
| StructuredProperties.SetAllCells | vtl-model/src/main/java/fr/insee/vtl/model/Structured.java:161-163 | On a row that fits a well-formed structure (distinct names, each index its position), setting entries in turn succeeds exactly when every key is a column. Each cell then holds the last value given for its column, or its old value |
| StructuredProperties.SetAllOutcome | vtl-model/src/main/java/fr/insee/vtl/model/Structured.java:161-178 | On a row of `size()` cells over any structure, setting entries in turn succeeds exactly when every key is a column whose index lies inside the row. A failure is an unknown column or an index out of bounds |
| StructuredProperties.FromMapOutcome | vtl-model/src/main/java/fr/insee/vtl/model/Structured.java:151-178 | On any structure, repeated names included, a row built from a map succeeds exactly when every key is a column whose index lies inside the row. A failure is an unknown column or an index out of bounds |
| StructuredProperties.FromMapFails | vtl-model/src/main/java/fr/insee/vtl/model/Structured.java:157-164 | Over a well-formed structure (distinct names, each index its position), a row built from a map fails exactly when some key is not a column, and then with an unknown-column error |
| StructuredProperties.FromMapCells | vtl-model/src/main/java/fr/insee/vtl/model/Structured.java:151-164 | Over a well-formed structure (distinct names, each index its position), a row built from a map has one cell per column. Each column reads the map's value for it, or null |
| StructuredProperties.FromMapRoundTrip | vtl-model/src/main/java/fr/insee/vtl/model/Structured.java:157-164 | Round trip over a well-formed structure (distinct names, each index its position): every supplied key reads back its value, and every other column reads null |
| StructuredProperties.FromCollectionCells | vtl-model/src/main/java/fr/insee/vtl/model/Structured.java:166-174 | In a row built from a collection over a well-formed structure, the k-th column reads the k-th value. With fewer values than columns, a column past them fails as out of bounds, since the size is never checked |
| EngineProperties.GetColumn | vtl-model/src/main/java/fr/insee/vtl/model/Structured.java:172-174 | On a row that fits its structure, `get` of the k-th column name reads the k-th cell |
| Engine.FirstIncompatible | vtl-engine/src/test/java/fr/insee/vtl/engine/visitors/expression/functions/SetFunctionsVisitorTest.java:47-61 | Returns nothing exactly when every structure is compatible with the first. Otherwise it returns the first incompatible position |
| Engine.Union | vtl-model/src/main/java/fr/insee/vtl/model/ProcessingEngine.java:54-60 | Union fails exactly when some operand's structure differs from the first's, naming the first such operand by position and text. On success it has the first operand's structure |
| EngineProperties.UnionReportsFirstIncompatible | vtl-engine/src/test/java/fr/insee/vtl/engine/visitors/expression/functions/SetFunctionsVisitorTest.java:47-61 | When every operand before position i is compatible and the one at i is not, the union's error names operand i |
| EngineProperties.ReorderedCompatible | vtl-engine/src/test/java/fr/insee/vtl/engine/visitors/expression/functions/SetFunctionsVisitorTest.java:31-46 | Structures built from the same components in different orders are union-compatible |
| EngineProperties.UnionIncompatibleStructure | vtl-engine/src/test/java/fr/insee/vtl/engine/visitors/expression/functions/SetFunctionsVisitorTest.java:28-62 | The incompatible-structure test: two reordered structures and a third with a renamed column. The union reports the third operand |
| EngineProperties.UnionWithItself | vtl-engine/src/test/java/fr/insee/vtl/engine/visitors/expression/functions/SetFunctionsVisitorTest.java:64-87 | The union of a dataset with itself succeeds, keeps the structure and contains every row of the dataset |
| EngineProperties.UnionRows | vtl-engine/src/test/java/fr/insee/vtl/engine/visitors/expression/functions/SetFunctionsVisitorTest.java:89-121 | Every operand row is in a successful union, no row appears twice and no other row appears |
| EngineProperties.UnionRowsDistinct | vtl-engine/src/test/java/fr/insee/vtl/engine/visitors/expression/functions/SetFunctionsVisitorTest.java:123-167 | Over valid operands, the union is valid and its rows, read as maps, are the distinct rows of all operands in first-seen order |
| Engine.RenameStructure | vtl-model/src/main/java/fr/insee/vtl/model/ProcessingEngine.java:36-43 | Rename fails exactly when a key of the rename map is not a column, and then names such a key |
| EngineProperties.NewNameOfMap | vtl-model/src/main/java/fr/insee/vtl/model/ProcessingEngine.java:36-43 | The rename map sends each old name (a key) to its new name (the key's value) and leaves every other name alone |
| EngineProperties.RenameLayout | vtl-model/src/main/java/fr/insee/vtl/model/ProcessingEngine.java:36-43 | With distinct new names, every column stays at its position with its type and role, under its new name |
| EngineProperties.RenameRows | vtl-model/src/main/java/fr/insee/vtl/model/ProcessingEngine.java:36-43 | With distinct new names, renaming keeps the rows: each row reads under a column's new name what it read under the old one |
| Engine.ProjectStructure | vtl-model/src/main/java/fr/insee/vtl/model/ProcessingEngine.java:45-52 | Project fails exactly when a listed name is not a column, and then names such a column |
| EngineProperties.ProjectColumns | vtl-model/src/main/java/fr/insee/vtl/model/ProcessingEngine.java:45-52 | Keeping known names gives a well-formed structure whose columns are exactly the listed names, each once and in first-listed order. Names listed once each are kept exactly as listed |
| EngineProperties.ProjectLayout | vtl-model/src/main/java/fr/insee/vtl/model/ProcessingEngine.java:45-52 | Each kept column has the type and role it had in the input |
| EngineProperties.ProjectShape | vtl-model/src/main/java/fr/insee/vtl/model/ProcessingEngine.java:45-52 | Keeping known names of a valid dataset succeeds and keeps every row, each holding the kept columns' cells in column order |
| EngineProperties.ProjectRowsKept | vtl-model/src/main/java/fr/insee/vtl/model/ProcessingEngine.java:45-52 | Projecting a valid dataset keeps every row, and each row reads under each listed name what it read before, even when a name is listed twice |
| Engine.CalcStructure | vtl-model/src/main/java/fr/insee/vtl/model/ProcessingEngine.java:14-23 | Calc fails exactly when a computed column has no role in the roles map, and then names it |
| EngineProperties.CalcComputedColumns | vtl-model/src/main/java/fr/insee/vtl/model/ProcessingEngine.java:14-23 | The calc structure's columns are the input's followed by the new computed ones. Each computed column carries its expression's type and its role from the map |
| EngineProperties.CalcKeptColumns | vtl-model/src/main/java/fr/insee/vtl/model/ProcessingEngine.java:14-23 | Calc leaves every input column it does not compute as it was |
| DispatchProperties.ParenthesesTransparent | vtl-engine/src/main/java/fr/insee/vtl/engine/visitors/expression/ExpressionVisitor.java:137-140 | Any depth of parentheses builds exactly what the inner node builds |
| DispatchProperties.UnmodelledRoutes | vtl-engine/src/main/java/fr/insee/vtl/engine/visitors/expression/ExpressionVisitor.java:149-164 | Each node kind reaches its builder. Comparisons and in/not-in share the comparison builder, and a function call reaches its family's builder |
| DispatchProperties.BuilderNamesDistinct | vtl-engine/src/main/java/fr/insee/vtl/engine/visitors/expression/ExpressionVisitor.java:189-238 | Distinct builders have distinct names, so the builder a node reaches is identified |
| DispatchProperties.SetFamilyOtherCalls | vtl-engine/src/main/java/fr/insee/vtl/engine/visitors/expression/ExpressionVisitor.java:213-216 | Every set-family call other than union goes to the set-function builder |
| DispatchProperties.ConstantTyping | vtl-engine/src/main/java/fr/insee/vtl/engine/visitors/expression/ExpressionVisitor.java:66-69 | A constant builds in any environment. Its static type is the class of the value it resolves to, and it is statically null exactly for `null` |
| DispatchProperties.AssignmentConstants | java-vtl-engine/src/test/java/fr/insee/vtl/engine/VtlAssignmentTest.java:56-75 | Integer literals resolve to longs, decimals to doubles, booleans and strings to themselves, and `null` to null |
| DispatchProperties.VariableLookup | vtl-engine/src/main/java/fr/insee/vtl/engine/visitors/expression/ExpressionVisitor.java:78-81 | A variable builds exactly when it is bound, with the type of its binding, and resolves to exactly what the context binds |
| DispatchProperties.VariableExpression | java-vtl-engine/src/test/java/fr/insee/vtl/engine/VtlAssignmentTest.java:47-54 | `bar := foo` yields the very value bound to `foo` |
| DispatchProperties.UnionBuildChecksStructures | vtl-engine/src/main/java/fr/insee/vtl/engine/visitors/expression/ExpressionVisitor.java:213-216 | A union call builds exactly when every operand's static structure is compatible with the first's, giving a dataset expression of the first's structure |
| DispatchProperties.UnionBuildNamesFirstIncompatible | vtl-engine/src/test/java/fr/insee/vtl/engine/visitors/expression/functions/SetFunctionsVisitorTest.java:58-61 | A union that fails to build names the first incompatible operand, by position and source text |
| DispatchProperties.OperandsNotADataset | vtl-engine/src/main/java/fr/insee/vtl/engine/visitors/expression/ExpressionVisitor.java:213-216 | Operands are built left to right: when all before position i build and the one at i is not a dataset expression, the list fails with `NotADataset` |
| DispatchProperties.UnionOperandNotADataset | vtl-engine/src/main/java/fr/insee/vtl/engine/visitors/expression/ExpressionVisitor.java:213-216 | The first union operand, at any position, that builds to something other than a dataset expression fails the union with `NotADataset` |
| DispatchProperties.ClauseBuild | vtl-engine/src/main/java/fr/insee/vtl/engine/visitors/expression/ExpressionVisitor.java:247-252 | A clause needs a dataset subject. Rename and keep build exactly when their names are columns of the subject, and the result structure is the engine's |
| IfProperties.IfStaticNull | vtl-engine/src/main/java/fr/insee/vtl/engine/visitors/expression/IfVisitor.java:40-43 | A statically null condition gives a Boolean-typed null whatever the branches, even branches that would fail to build |
| IfProperties.IfConditionFails | vtl-engine/src/main/java/fr/insee/vtl/engine/visitors/expression/IfVisitor.java:40-49 | A condition that fails to build fails the conditional with the same error |
| IfProperties.IfConditionNotBoolean | vtl-engine/src/main/java/fr/insee/vtl/engine/visitors/expression/IfVisitor.java:45-49 | A condition that is neither null nor Boolean is a type error naming Boolean and the condition's type |
| IfProperties.UnifyRetypesNull | vtl-engine/src/main/java/fr/insee/vtl/engine/visitors/expression/IfVisitor.java:56-62 | A null else-branch takes the then-branch's type, and otherwise a null then-branch takes the else-branch's. Non-null branches are kept |
| IfProperties.IfBranchTyping | vtl-engine/src/main/java/fr/insee/vtl/engine/visitors/expression/IfVisitor.java:64-72 | With a Boolean condition, the conditional builds exactly when the unified branch types agree, with the then-branch's type; otherwise the error names both types |
| IfProperties.IfBranchFails | vtl-engine/src/main/java/fr/insee/vtl/engine/visitors/expression/IfVisitor.java:52-53 | The then-branch is built before the else-branch, and a branch build error fails the conditional |
| IfProperties.IfSelects | vtl-engine/src/main/java/fr/insee/vtl/engine/visitors/expression/IfVisitor.java:72-77 | A true condition yields the then-value, and false or null yields the else-value; each is cast to the static type |
| IfProperties.IfConditionResolution | vtl-engine/src/main/java/fr/insee/vtl/engine/visitors/expression/IfVisitor.java:73 | A condition that fails to resolve, or is not a Boolean, fails the conditional |
| IfProperties.IfUnselectedIgnored | vtl-engine/src/main/java/fr/insee/vtl/engine/visitors/expression/IfVisitor.java:74-76 | The branch not selected is never resolved: replacing it, even by one that fails, changes nothing |
| BooleanProperties.BuildBooleanShape | java-vtl-engine/src/main/java/fr/insee/vtl/engine/visitors/expression/BooleanVisitor.java:12-35 | Both operands are built first, so their errors win. Then AND, OR and XOR give Boolean-typed expressions over those operands, and any other operator is unsupported |
| BooleanProperties.NoOperandTypeCheck | java-vtl-engine/src/main/java/fr/insee/vtl/engine/visitors/expression/BooleanVisitor.java:12-21 | `1 and true` builds, and fails only when resolved, with a class-cast failure |
| BooleanProperties.BooleanTruthTables | java-vtl-engine/src/main/java/fr/insee/vtl/engine/visitors/expression/BooleanVisitor.java:15-33 | On two Booleans, AND, OR and XOR are conjunction, disjunction and inequality |
| BooleanProperties.AssignmentTruthTable | java-vtl-engine/src/test/java/fr/insee/vtl/engine/VtlAssignmentTest.java:21-45 | For variables bound to any two Booleans, `a and b`, `a or b` and `a xor b` build and resolve to the truth table's values |
| BooleanProperties.NullLeftOperand | java-vtl-engine/src/main/java/fr/insee/vtl/engine/visitors/expression/BooleanVisitor.java:18-20 | A null left operand fails to unbox for every operator |
| BooleanProperties.NullRightOperand | java-vtl-engine/src/main/java/fr/insee/vtl/engine/visitors/expression/BooleanVisitor.java:15-33 | A null right operand is skipped only by false-AND and true-OR; every other case fails to unbox |
| BooleanProperties.NonBooleanOperand | java-vtl-engine/src/main/java/fr/insee/vtl/engine/visitors/expression/BooleanVisitor.java:18-20 | An operand that is not a Boolean fails its cast, the left one first |
| BooleanProperties.BothOperandsResolved | java-vtl-engine/src/main/java/fr/insee/vtl/engine/visitors/expression/BooleanVisitor.java:17-19 | Both operands are always resolved, so a failing right operand fails even false-AND and true-OR |
| BooleanProperties.BooleanResultsAreBooleans | java-vtl-engine/src/main/java/fr/insee/vtl/engine/visitors/expression/BooleanVisitor.java:15-33 | Whatever resolves is a Boolean, never a null |
| ArithmeticProperties.OperatorCheckedFirst | vtl-engine/src/main/java/fr/insee/vtl/engine/visitors/expression/ArithmeticVisitor.java:25-34 | Any operator other than `*` and `/` is unsupported, even when an operand would fail to build |
| ArithmeticProperties.LeftCheckedBeforeRight | vtl-engine/src/main/java/fr/insee/vtl/engine/visitors/expression/ArithmeticVisitor.java:38-40 | The left operand is built and checked numeric before the right one is built |
| ArithmeticProperties.ArithmeticTyping | vtl-engine/src/main/java/fr/insee/vtl/engine/visitors/expression/ArithmeticVisitor.java:38-66 | The expression builds exactly for `*`/`/` on numeric operands. Integer times integer is an integer; every other product, and every quotient, is real |
| ArithmeticProperties.LongProduct | vtl-engine/src/main/java/fr/insee/vtl/engine/visitors/expression/ArithmeticVisitor.java:41-47 | A product of longs equals the exact product when that fits in 64 bits, and is congruent to it modulo 2^64 otherwise |
| ArithmeticProperties.LongProductOverflows | vtl-engine/src/main/java/fr/insee/vtl/engine/visitors/expression/ArithmeticVisitor.java:41-47 | `Long.MAX_VALUE * 2` wraps round to -2 |
| ArithmeticProperties.DoubleArithmetic | vtl-engine/src/main/java/fr/insee/vtl/engine/visitors/expression/ArithmeticVisitor.java:48-66 | A real product or a quotient converts longs to doubles first, so a quotient of longs is never an integer division |
| ArithmeticProperties.NullLeftOperandFails | vtl-engine/src/main/java/fr/insee/vtl/engine/visitors/expression/ArithmeticVisitor.java:41-47 | A null left operand fails to unbox for every operator |
| ArithmeticProperties.NullRightOperandFails | vtl-engine/src/main/java/fr/insee/vtl/engine/visitors/expression/ArithmeticVisitor.java:41-47 | A null right operand fails to unbox for every operator |
| ArithmeticProperties.NonNumberOperandFails | vtl-engine/src/main/java/fr/insee/vtl/engine/visitors/expression/ArithmeticVisitor.java:41-66 | An operand that is neither a number nor null fails its cast |
| Visitors.AssertType | vtl-engine/src/main/java/fr/insee/vtl/engine/visitors/expression/IfVisitor.java:45-49 | The type assertion succeeds exactly for an expression of that type or a statically null one. The result has the type; otherwise the error names both types |
| Visitors.AssertNumber | vtl-engine/src/main/java/fr/insee/vtl/engine/visitors/expression/ArithmeticVisitor.java:38-40 | The number check succeeds exactly for integer- or real-typed expressions, and returns them unchanged |
| Preservation.BuildWellTyped | vtl-engine/src/main/java/fr/insee/vtl/engine/visitors/expression/ExpressionVisitor.java:66-252 | Whatever builds is well typed: operand types as the builders checked them, branch types unified, union operands compatible, clause structures as the engine gives them |
| Preservation.ResolvePreservesType | vtl-engine/src/main/java/fr/insee/vtl/engine/visitors/expression/IfVisitor.java:72-77 | A well-typed expression, resolved in a conforming context, yields a value of its static type. A dataset expression yields a dataset of its static structure |
| Preservation.BuildThenResolve | vtl-engine/src/main/java/fr/insee/vtl/engine/visitors/expression/ExpressionVisitor.java:66-252 | Built, then resolved in a context agreeing with the build-time bindings, an expression yields a value of its static type |
| Preservation.UnionCheckedOnce | vtl-model/src/main/java/fr/insee/vtl/model/ProcessingEngine.java:54-60 | The structure check made while building the union is never failed when resolving: once the operands resolve, the union does, with the static structure |
| Preservation.IfProgress | vtl-engine/src/main/java/fr/insee/vtl/engine/visitors/expression/IfVisitor.java:72-77 | The conditional's final cast never fails on a well-typed conditional: once the condition and the selected branch resolve, the conditional yields that branch's value |
| Preservation.RenameCheckedOnce | vtl-model/src/main/java/fr/insee/vtl/model/ProcessingEngine.java:36-43 | Likewise for rename: once the subject resolves, the rename does, with the static structure |

## Left out

- **Real arithmetic** is not modelled. Doubles are symbolic terms (a literal, a converted long, a product or a quotient), so IEEE rounding, infinities and NaN are absent. Only the result type and the long-to-double conversion are modelled.
- Engine.Union: removing duplicate rows compares values as model terms. Two doubles written differently are therefore different rows even when Java would find them equal, such as the literal `2.0` and the long `2` converted to a double.
- **Builders whose code is not part of this model** (constant, variable, unary, comparison, arithmetic-or-concat, the set-function builder, the string, comparison, numeric, distance and join function families, and the clause visitor) are handled as follows:
  - the constant and variable builders follow what the assignment tests expect;
  - for union, rename and keep, the builder's result structure is the processing engine's;
  - the rest fail with `OutsideModel`.
- **Aggregation, the four joins and filter** of the processing engine are not modelled: `InMemoryProcessingEngine` is not part of this model, and the interface gives only their signatures.
- **Row-level calc** is not modelled, because it would need the computed expressions to be evaluated row by row. Only the structure a calc produces is modelled.
- **The engine's implementation** (`InMemoryProcessingEngine`) and `InMemoryDataset` are not part of this model. Union rows follow the union tests: rows compare as name-to-value maps, and each distinct row is kept once. Rename and project rows are the model's reading of the interface comments ("old name to new name", "column names to keep"): every row keeps its cells, read under the new or kept names.
- **`javax.script` and the parser.** The script engine, its bindings and the ANTLR parser are replaced by a node datatype and explicit binding maps. Java map iteration order is a parameter: maps are sequences of entries with distinct keys.
- **Integer boxing.** Only `Long` integers are modelled. The variable test binds `123` as an `Integer`, and the model binds a `Long`.
- **Runtime-only checks.** `Objects.requireNonNull`, `hashCode` (it covers the same fields as `equals`), `toString` and `module-info.java` are not modelled.
- Visitors.BuildUnion: the set-function builder is not part of this model, so three choices are the model's. The structure check is made when the union is built; the tests show only that evaluating it throws. Every operand is built, in order, before structures are compared, so a later operand's build error wins over an earlier incompatibility. An operand that is not a dataset expression fails with `NotADataset`.
- Visitors.BuildClause: the cast of a non-dataset subject in `visitClauseExpr` is a `ClassCastException` in Java. It is modelled as the build error `NotADataset`.
- Engine.ProjectRows: the rows are only described for rows that fit their structure. The failure on a malformed row is an artefact of the model's cell lookup.
- EngineProperties.RenameLayout: only stated for renames whose new names are distinct. `InMemoryProcessingEngine` is not modelled, so a rename onto an existing name is unconstrained.
- EngineProperties.RenameRows: only stated for renames whose new names are distinct, for the same reason.
- Engine.RenameStructure: the `UnknownColumn` failure for a key that is not a column is the model's choice. The interface comment does not say what happens then, and `InMemoryProcessingEngine` is not modelled.
- Engine.ProjectStructure: the `UnknownColumn` failure for a listed name that is not a column is the model's choice, for the same reason.
- Engine.CalcStructure: the `MissingRole` failure for a computed column without a role is the model's choice, for the same reason.
- Visitors.AssertType: `TypeChecking.assertTypeExpression` is not part of this model. Its behaviour is read from how `IfVisitor` uses it: keep a matching expression, retype a null one, and report both types otherwise.
- Visitors.AssertNumber: `TypeChecking.assertNumber` is not part of this model. Its behaviour is read from how `ArithmeticVisitor` uses it: accept integer- and real-typed expressions unchanged.
- Typed.Resolve: a retyped null (the result of `assertTypeExpression` on a null expression) resolves its inner expression and then casts the value. This is how the model reads the helper, whose code is not part of this model.
- Visitors.BuildVar: the variable builder is not part of this model. `UndefinedVariable` for an unbound name is the model's choice.
- Visitors.BuildBoolean: the operands are built through the same `Build`, in the same environment. The `BooleanVisitor` of `java-vtl-engine` (lines 9 and 13-14) builds them with its own `new ExpressionVisitor()`. The dispatcher of `vtl-engine` constructs `new BooleanVisitor(this)` (`ExpressionVisitor.java` line 44), and that module's `BooleanVisitor` is not part of this model. The model follows the dispatcher: a variable operand sees the caller's bindings.
- Engine.Project: a name listed twice gives one column, at its first place, and each row holds one cell for it, because the kept structure is a map. This is the model's reading, since `InMemoryProcessingEngine` is not modelled.
- StructuredProperties.SetAllCells: stated for rows that fit a well-formed structure. With a repeated name two columns can share a cell or an index can lie past the row; `SetAllOutcome`, `RepeatedNameIndex` and `RepeatedNameAliasesNext` state what happens then.
- StructuredProperties.FromMapFails: stated for well-formed structures. With a repeated name a known column can fail out of bounds (`RepeatedNameIndexPastEnd`); `FromMapOutcome` gives the condition for any structure.
- StructuredProperties.FromMapCells: stated for well-formed structures. With a repeated name two columns can share one cell (`RepeatedNameAliasesNext`, `RepeatedNameAliasExample`), so a column need not read the map's value for it.
- StructuredProperties.FromMapRoundTrip: stated for well-formed structures. With a repeated name an unsupplied column can read a supplied value instead of null (`RepeatedNameAliasExample`).
