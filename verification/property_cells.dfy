/** `Logging.logProperty` of app.ts and the JavaScript property lookup it
    interacts with.

    A property decorator on an instance field receives the class prototype.
    With logging off it does nothing. With logging on it replaces the
    prototype's property by a get/set accessor pair whose getter returns,
    and whose setter overwrites, a variable the pair closes over; that
    variable starts as the prototype's value for the property.

    Instances read a property from their own data properties first and from
    the prototype otherwise; an assignment to a property an instance does
    not own runs the prototype's setter if there is one, and creates an own
    data property if there is not. Since the accessor pair sits on the
    prototype and closes over ONE variable, every instance of the class
    reads and writes the same value (`SharedCell`). `InstanceCells` keeps
    one variable per instance, the behaviour an ordinary field has.
 */
module PropertyCells {
  import opened Outcomes

  /** A reference to an instance. */
  type Ref = nat

  /** How the prototype holds a property. */
  datatype Slot<T> =
      /** An ordinary data property. */
    | Field(value: Option<T>)
      /** The accessor pair `logProperty` installs: one variable for all instances. */
    | SharedCell(value: Option<T>)
      /** An accessor pair keeping one variable per instance, starting at `initial`. */
    | InstanceCells(initial: Option<T>, cells: map<Ref, Option<T>>)

  /** A prototype and the own data properties of each instance. */
  datatype World<T> = World(proto: map<string, Slot<T>>, own: map<Ref, map<string, Option<T>>>)

  /** The own data properties of instance `r`. */
  function OwnProps<T>(w: World<T>, r: Ref): map<string, Option<T>>
  {
    if r in w.own then w.own[r] else map[]
  }

  /** `target[propertyKey]` read on the prototype itself. */
  function ProtoValue<T>(proto: map<string, Slot<T>>, key: string): Option<T>
  {
    if key !in proto then None
    else match proto[key]
      case Field(v) => v
      case SharedCell(v) => v
      case InstanceCells(init, _) => init
  }

  /** `logProperty(target, key)` as written. */
  function LogProperty<T>(logging: bool, proto: map<string, Slot<T>>, key: string): (p: map<string, Slot<T>>)
    ensures !logging ==> p == proto
    ensures logging ==> p.Keys == proto.Keys + {key}
    ensures logging ==> p[key] == SharedCell(ProtoValue(proto, key))
    ensures forall k :: k in proto && k != key ==> p[k] == proto[k]
  {
    if !logging then proto else proto[key := SharedCell(ProtoValue(proto, key))]
  }

  /** `logProperty` with one variable per instance. */
  function LogPropertyPerInstance<T>(logging: bool, proto: map<string, Slot<T>>, key: string): (p: map<string, Slot<T>>)
    ensures !logging ==> p == proto
    ensures logging ==> p.Keys == proto.Keys + {key}
    ensures logging ==> p[key] == InstanceCells(ProtoValue(proto, key), map[])
    ensures forall k :: k in proto && k != key ==> p[k] == proto[k]
  {
    if !logging then proto else proto[key := InstanceCells(ProtoValue(proto, key), map[])]
  }

  /** `instance[key]`. */
  function Read<T>(w: World<T>, r: Ref, key: string): Option<T>
  {
    var own := OwnProps(w, r);
    if key in own then own[key]
    else if key !in w.proto then None
    else match w.proto[key]
      case Field(v) => v
      case SharedCell(v) => v
      case InstanceCells(init, cells) => if r in cells then cells[r] else init
  }

  /** `instance[key] = v`. */
  function Write<T>(w: World<T>, r: Ref, key: string, v: T): World<T>
  {
    var own := OwnProps(w, r);
    if key in own || key !in w.proto || w.proto[key].Field? then
      w.(own := w.own[r := own[key := Some(v)]])
    else match w.proto[key]
      case SharedCell(_) => w.(proto := w.proto[key := SharedCell(Some(v))])
      case InstanceCells(init, cells) => w.(proto := w.proto[key := InstanceCells(init, cells[r := Some(v)])])
  }

  /** Writes through instance `r`, in order. */
  function WriteAll<T>(w: World<T>, r: Ref, key: string, vs: seq<T>): World<T>
  {
    if vs == [] then w else Write(WriteAll(w, r, key, vs[..|vs| - 1]), r, key, vs[|vs| - 1])
  }

  /** Whatever holds the property, reading it back gives the value just written. */
  lemma ReadAfterWrite<T>(w: World<T>, r: Ref, key: string, v: T)
    ensures Read(Write(w, r, key, v), r, key) == Some(v)
  {
  }

  /** Reading through an instance returns the most recent value written
      through it, or what it read before if nothing was written. */
  lemma ReadAfterWriteAll<T>(w: World<T>, r: Ref, key: string, vs: seq<T>)
    ensures Read(WriteAll(w, r, key, vs), r, key)
            == if vs == [] then Read(w, r, key) else Some(vs[|vs| - 1])
  {
  }

  /** With logging on, an instance that has not written the property reads
      the value the prototype held when the decorator ran. */
  lemma ReadInitialValue<T>(proto: map<string, Slot<T>>, own: map<Ref, map<string, Option<T>>>,
                            r: Ref, key: string)
    requires r !in own || key !in own[r]
    ensures Read(World(LogProperty(true, proto, key), own), r, key) == ProtoValue(proto, key)
    ensures Read(World(LogPropertyPerInstance(true, proto, key), own), r, key) == ProtoValue(proto, key)
  {
  }

  /** As written: once the property is decorated with logging on, a value
      written through one instance is what every other instance that has no
      own property reads. Undecorated, the other instance does not see it. */
  lemma SharedCellLeaks<T>(proto: map<string, Slot<T>>, key: string, a: Ref, b: Ref, v: T)
    requires a != b
    requires key !in proto
    ensures var w := World(LogProperty(true, proto, key), map[]);
            Read(Write(w, a, key, v), b, key) == Some(v)
    ensures var w := World(LogProperty(false, proto, key), map[]);
            Read(Write(w, a, key, v), b, key) == None
  {
  }

  /** No slot of the property shares one value among instances. */
  predicate Isolating<T>(w: World<T>, key: string)
  {
    key !in w.proto || !w.proto[key].SharedCell?
  }

  /** Two worlds in which every instance reads the same value for `key`. */
  ghost predicate Agree<T>(w1: World<T>, w2: World<T>, key: string)
  {
    forall r :: Read(w1, r, key) == Read(w2, r, key)
  }

  /** A write through one instance leaves what the others read unchanged,
      as long as the property is not held in a shared cell. */
  lemma WriteIsolated<T>(w: World<T>, a: Ref, b: Ref, key: string, v: T)
    requires Isolating(w, key) && a != b
    ensures Isolating(Write(w, a, key, v), key)
    ensures Read(Write(w, a, key, v), b, key) == Read(w, b, key)
  {
  }

  /** With one variable per instance, decorating the property changes
      nothing any instance reads: decorated and undecorated classes agree
      right after decoration and keep agreeing after any write. */
  lemma PerInstanceDecorationTransparent<T>(proto: map<string, Slot<T>>,
                                            own: map<Ref, map<string, Option<T>>>, key: string)
    requires key in proto ==> proto[key].Field?
    ensures var w1 := World(proto, own);
            var w2 := World(LogPropertyPerInstance(true, proto, key), own);
            Isolating(w1, key) && Isolating(w2, key) && Agree(w1, w2, key)
  {
  }

  /** Writes preserve agreement between two isolating worlds. */
  lemma {:induction false} WritePreservesAgree<T>(w1: World<T>, w2: World<T>, key: string, a: Ref, v: T)
    requires Isolating(w1, key) && Isolating(w2, key) && Agree(w1, w2, key)
    ensures Isolating(Write(w1, a, key, v), key) && Isolating(Write(w2, a, key, v), key)
    ensures Agree(Write(w1, a, key, v), Write(w2, a, key, v), key)
  {
    forall b
      ensures Read(Write(w1, a, key, v), b, key) == Read(Write(w2, a, key, v), b, key)
    {
      if b == a {
        ReadAfterWrite(w1, a, key, v);
        ReadAfterWrite(w2, a, key, v);
      } else {
        WriteIsolated(w1, a, b, key, v);
        WriteIsolated(w2, a, b, key, v);
      }
    }
  }
}
