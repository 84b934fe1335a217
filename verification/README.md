# Trail, Trek and the logging decorators, modelled in Dafny

This project models the functional core of `app.ts`, a TypeScript script
about decorators:

- **Trails** (`trails.dfy`): instances of `Trail` and `Trek` in a heap of
  references. It covers the constructor, the `coordinates` getter and setter,
  `add` (append, then return the receiver), `Trek.add` (delegates to
  `Trail.add`), and `totalDistance`. `totalDistance` maps index 0 to 0 and
  every later index `i` to `dist(coord[i], coord[i-1])`, then sums the
  result with `reduce`, which gets no initial value. So an empty trail
  throws (`Err(EmptyReduce)`) and a one-point trail gives 0.
- **Arrays** (`arrays.dfy`): `Array.prototype.reduce` without an initial
  value, as a left fold seeded with the first element.
- **ParamTags** (`param_tags.dfy`): the table `Logging.logParam` builds. It
  maps a method name to the positions of its tagged parameters.
  `Logging.logMethodParams` copies a method's positions once, when the
  class is defined. The method it wraps logs the arguments at those
  positions when logging is on, then calls the original body with the same
  receiver and arguments. JavaScript `Set`s iterate in insertion order, so
  an entry is a duplicate-free `seq<nat>`. `Elements` gives the set it
  stands for.
- **PropertyCells** (`property_cells.dfy`): `Logging.logProperty` and the
  JavaScript property lookup it relies on. Reads check the instance's own
  data properties first, then the prototype. An assignment to a property the
  instance does not own runs the prototype's setter, if there is one.
- **Points** (`points.dfy`) and **Outcomes** (`outcomes.dfy`): points and
  observations, and the `Result`/`Option` values that stand for thrown
  exceptions and `undefined`.

The decorators' runtime plumbing is replaced by explicit parameters:
- the logging flag is a `bool` argument;
- the reflection metadata is a `Table` passed in and returned;
- the prototype is a `map` from property names to slots.

`Point.distanceTo` is the parameter `dist: (Point, Point) -> real` and is
never interpreted.

## Model

| member | source | states |
|---|---|---|
| Arrays.Reduce | app.ts:149 | `reduce` with no initial value throws exactly when the array is empty; a one-element array reduces to its element |
| Arrays.ReducePlusIsSum | app.ts:149 | on a non-empty array, `reduce` with `(p, c) => p + c` yields the sum of the elements |
| Trails.Construct | app.ts:118-130 | `new Trail()` / `new Trek()` allocates a fresh reference whose coordinates are empty and leaves every existing instance unchanged |
| Trails.GetCoordinates | app.ts:122-124 | the getter returns the receiver's coordinates: empty after construction (`Construct`), exactly the assigned sequence after the setter (`SetCoordinates`), the old sequence with `p` appended after `add(p)` (`Add`) |
| Trails.SetCoordinates | app.ts:125-127 | the setter replaces the whole sequence, so the getter returns exactly the new one; no other instance changes |
| Trails.Add | app.ts:133-136 | `add(p)` returns the receiver itself; the receiver's coordinates grow by one, earlier points are unchanged and the last one is `p`; no other instance changes |
| Trails.AddIsSetAppend | app.ts:122-135 | `add(p)` has the same effect as setting the coordinates to the old ones with `p` appended |
| Trails.AddChain | app.ts:133-135 | because `add` returns its receiver, `t.add(a).add(b)` appends `a` then `b` to `t` itself |
| Trails.TrekAdd | app.ts:164-167 | `Trek.add` takes observations only, returns the receiver and has exactly the effect of `Trail.add` |
| Trails.TotalDistance | app.ts:138-152 | throws `EmptyReduce` exactly when the trail is empty; otherwise returns the path length, the sum over `i` in `1..n-1` of `dist(coord[i], coord[i-1])` |
| Trails.Legs | app.ts:142-147 | the array `map` builds has one entry per point: 0 at index 0 and `dist(coord[i], coord[i-1])` at every later index; `LegsSnoc` and `LegsSumIsPathLength` relate it to the path length |
| Trails.LegsSumIsPathLength | app.ts:142-149 | the mapped array, with 0 at index 0 and consecutive-pair distances after it, sums to the path length |
| Trails.TotalDistanceOnePoint | app.ts:146-149 | a one-point trail has total distance 0 |
| Trails.TotalDistanceAfterAdd | app.ts:133-149 | adding a point to a non-empty trail adds the distance from the new point to the former last point |
| Trails.TotalDistanceUnitSteps | app.ts:142-149 | `n` points spaced one unit apart give total distance `n - 1` |
| ParamTags.LogParam | app.ts:83-96 | after `logParam(key, i)` the entry for `key` holds `i` and every position it held before, in insertion order; a new key maps to exactly `[i]`; all other entries are unchanged; entries stay duplicate-free |
| ParamTags.LogParamMissingTable | app.ts:84-87 | missing metadata behaves like an empty table |
| ParamTags.LogParamIdempotent | app.ts:88-95 | tagging the same `(key, i)` twice gives the same table as tagging it once |
| ParamTags.LogParamsRecordsTags | app.ts:83-96 | after any sequence of tags from no metadata, a key has an entry exactly when one of its parameters was tagged; the entry holds exactly the tagged positions, each once |
| ParamTags.LogMethodParams | app.ts:103 | decorating succeeds exactly when metadata exists and has an entry for the method, and then copies that entry; otherwise it throws |
| ParamTags.LogMethodParamsAfterLogParam | app.ts:83-103 | once a parameter of the method has been tagged, decorating succeeds and the copy contains that position and all earlier ones |
| ParamTags.Select | app.ts:109 | the logged arguments are those at the copied positions, in order; it fails exactly when some position has no argument |
| ParamTags.Invoke | app.ts:105-112 | the wrapper logs only when logging is on, and then the arguments at the copied positions; whenever logging is off or every position has an argument, it returns what the original body returns for the same receiver and arguments; otherwise it throws before calling the body |
| ParamTags.InvokeFlagTransparent | app.ts:105-112 | when every tagged position has an argument, switching logging on or off does not change the result, and with logging off nothing is logged |
| PropertyCells.LogProperty | app.ts:51-65 | with logging off the prototype is left untouched; with it on, exactly the decorated property becomes an accessor pair over one variable that starts at the prototype's value |
| PropertyCells.ReadAfterWrite | app.ts:55-63 | reading the property back through an instance gives the value just written through it |
| PropertyCells.ReadAfterWriteAll | app.ts:55-63 | an instance reads the most recent value written through it, or its earlier value if nothing was written |
| PropertyCells.ReadInitialValue | app.ts:53-58 | after decoration, an instance that has written nothing reads the value the prototype held when the decorator ran |
| PropertyCells.SharedCellLeaks | app.ts:53-64 | as written, with logging on, a value written through one instance is read by every other instance; undecorated, it is not |
| PropertyCells.LogPropertyPerInstance | app.ts:51-65 | corrected decorator: as `LogProperty`, but the accessor pair keeps one variable per instance |
| PropertyCells.WriteIsolated | app.ts:55-63 | unless the property sits in a shared cell, a write through one instance leaves what every other instance reads unchanged |
| PropertyCells.PerInstanceDecorationTransparent | app.ts:51-65 | with the corrected decorator, decorated and undecorated classes agree on what every instance reads |
| PropertyCells.WritePreservesAgree | app.ts:55-63 | writes keep decorated (corrected) and undecorated classes in agreement, so the corrected decorator never changes an observed value |

## Left out

- Console output and its text: the log lines, `print`, the `toString` methods. `Invoke` reports which arguments are logged, not the message.
- `Point.distanceTo` is kept uninterpreted because it uses floating-point `Math.sqrt`/`Math.pow`. Its symmetry and zero-distance properties are therefore not stated.
- Trails.TotalDistance: numbers are exact reals, so floating-point rounding of the sum is not modelled.
- `Observation`'s timestamp (a `Date`) and height are not kept. An observation is only a point tagged as one.
- `Logging.logInstanceCreation`: it only logs and subclasses. Constructing through it is `Trails.Construct`.
- The `AC.*` permission decorators on the accessors, `add` and `totalDistance`: `./permission` is not part of this model. Every call is modelled as permitted. The order of permission checks against the logging wrapper is not modelled either.
- The `coordinates` getter returns the array object itself in the source. The model returns a value, so later mutation through that alias is not modelled.
- Trails.Construct, Trails.Add: the Trails module models the class with logging off, as at app.ts:16. With logging on, `_coordinates` lives in one variable shared by all instances, so each `new Trail()` empties every existing trail and `add` on one trail shows in all of them; that behaviour is shown by PropertyCells.SharedCellLeaks.
- Trails.SetCoordinates, Trails.Add: the setter stores the caller's array object itself (app.ts:126) and `add` pushes into it in place (app.ts:134). After `t.coordinates = xs; t.add(p)` the caller's `xs` has grown too, and two trails given the same array see each other's `add`s. The model stores sequence values, so "no other instance changes" holds in the model but not for trails that share an array in the source.
- `Reflect.getMetadata` also searches the prototype chain, so a subclass can see and mutate its parent's table. The model passes one table per prototype explicitly.
- ParamTags.Select: it fails only for positions beyond the argument list. An argument explicitly passed as `null` or `undefined` would also make `.toString()` throw, and that is not modelled.
- The top-level demonstration statements (app.ts:155-178).

## Findings

| source | as written | input that shows it | evidently intended | confidence | as-written member | corrected member |
|---|---|---|---|---|---|---|
| app.ts:53-64 | `logProperty` defines the accessor pair on the prototype, closing over a single `value`, so all instances share one `_coordinates` | logging on; `a = new Trail(); a.add(p); b = new Trail()`: constructing `b` assigns `[]` through the shared setter, and `a.coordinates` is then empty | each instance keeps its own value; turning logging on changes no value an instance reads | medium (assumes class fields compile to assignments, as with ES5 targets); not executed | PropertyCells.SharedCellLeaks | PropertyCells.PerInstanceDecorationTransparent |

The trail heap keeps one coordinate sequence per instance. That is the
program as shipped, with `logging = false` (app.ts:16), and it is also the
behaviour the corrected decorator gives with logging on.
