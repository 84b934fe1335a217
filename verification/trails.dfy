/** Classes `Trail` and `Trek` of app.ts: a trail owns an ordered, growable
    sequence of points, and `totalDistance` sums the distances between
    consecutive points with `map` and `reduce`.

    Instances live in a heap of references so that object identity can be
    stated: `add` mutates the receiver and returns that same receiver.
 */
module Trails {
  import opened Outcomes
  import opened Points
  import opened Arrays

  /** A reference to an instance. */
  type Ref = nat

  /** The class an instance was constructed from. */
  datatype Class = TrailClass | TrekClass

  /** The state of one instance: its class and its `_coordinates` field. */
  datatype Instance = Instance(cls: Class, coordinates: seq<Point>)

  /** All instances, and the next reference the allocator hands out. */
  datatype Heap = Heap(objects: map<Ref, Instance>, next: Ref)

  /** The result of a call that updates the heap and returns a reference. */
  datatype Step = Step(heap: Heap, ref: Ref)

  /** Every allocated reference lies below the allocator's next reference. */
  predicate Valid(h: Heap)
  {
    forall r :: r in h.objects ==> r < h.next
  }

  /** Two heaps agree on every instance other than `r`, and `r` keeps its class. */
  ghost predicate OnlyTouches(h: Heap, h': Heap, r: Ref)
  {
    && h'.objects.Keys == h.objects.Keys
    && h'.next == h.next
    && (r in h.objects ==> h'.objects[r].cls == h.objects[r].cls)
    && forall o :: o in h.objects && o != r ==> h'.objects[o] == h.objects[o]
  }

  /** `new Trail()` or `new Trek()`: a fresh instance whose coordinates are empty. */
  function Construct(h: Heap, cls: Class): (s: Step)
    requires Valid(h)
    ensures Valid(s.heap)
    ensures s.ref !in h.objects
    ensures s.heap.objects.Keys == h.objects.Keys + {s.ref}
    ensures s.heap.objects[s.ref] == Instance(cls, [])
    ensures forall o :: o in h.objects ==> s.heap.objects[o] == h.objects[o]
  {
    Step(Heap(h.objects[h.next := Instance(cls, [])], h.next + 1), h.next)
  }

  /** The `coordinates` getter. */
  function GetCoordinates(h: Heap, r: Ref): seq<Point>
    requires r in h.objects
  {
    h.objects[r].coordinates
  }

  /** The `coordinates` setter: replaces the whole sequence. */
  function SetCoordinates(h: Heap, r: Ref, cs: seq<Point>): (h': Heap)
    requires r in h.objects
    ensures OnlyTouches(h, h', r)
    ensures GetCoordinates(h', r) == cs
  {
    h.(objects := h.objects[r := h.objects[r].(coordinates := cs)])
  }

  /** `Trail.add`: appends a point to the receiver and returns the receiver. */
  function Add(h: Heap, r: Ref, p: Point): (s: Step)
    requires r in h.objects
    ensures s.ref == r
    ensures OnlyTouches(h, s.heap, r)
    ensures |GetCoordinates(s.heap, r)| == |GetCoordinates(h, r)| + 1
    ensures GetCoordinates(s.heap, r)[..|GetCoordinates(h, r)|] == GetCoordinates(h, r)
    ensures GetCoordinates(s.heap, r)[|GetCoordinates(h, r)|] == p
  {
    var inst := h.objects[r];
    Step(h.(objects := h.objects[r := inst.(coordinates := inst.coordinates + [p])]), r)
  }

  /** `Trek.add`: accepts observations only, delegates to `Trail.add` and
      returns the receiver. */
  function TrekAdd(h: Heap, r: Ref, o: ObservationPoint): (s: Step)
    requires r in h.objects && h.objects[r].cls == TrekClass
    ensures s.ref == r
    ensures s == Add(h, r, o)
  {
    var s0 := Add(h, r, o);
    Step(s0.heap, r)
  }

  /** The array `map` builds in `totalDistance`: index 0 gives 0 and every
      later index gives the distance from its point to the point before it. */
  function Legs(cs: seq<Point>, dist: Metric): seq<real>
  {
    seq(|cs|, i requires 0 <= i < |cs| => if i > 0 then dist(cs[i], cs[i - 1]) else 0.0)
  }

  /** The length of the polyline through `cs`: the sum over `i` in `1..|cs|-1`
      of the distance from `cs[i]` to `cs[i-1]`. */
  function PathLength(cs: seq<Point>, dist: Metric): real
  {
    if |cs| < 2 then 0.0
    else PathLength(cs[..|cs| - 1], dist) + dist(cs[|cs| - 1], cs[|cs| - 2])
  }

  /** `Trail.totalDistance`. It throws on an empty trail, because `reduce`
      is called without an initial value. */
  function TotalDistance(h: Heap, r: Ref, dist: Metric): (d: Result<real>)
    requires r in h.objects
    ensures d.Err? <==> GetCoordinates(h, r) == []
    ensures d.Err? ==> d.error == EmptyReduce
    ensures d.Ok? ==> d.value == PathLength(GetCoordinates(h, r), dist)
  {
    var cs := GetCoordinates(h, r);
    if cs == [] then Reduce(Legs(cs, dist), Plus)
    else
      LegsSumIsPathLength(cs, dist);
      ReducePlusIsSum(Legs(cs, dist));
      Reduce(Legs(cs, dist), Plus)
  }

  /** Appending a point appends one leg: the distance to the former last point. */
  lemma LegsSnoc(cs: seq<Point>, p: Point, dist: Metric)
    requires cs != []
    ensures Legs(cs + [p], dist) == Legs(cs, dist) + [dist(p, cs[|cs| - 1])]
  {
    var l, l' := Legs(cs, dist), Legs(cs + [p], dist);
    assert forall i :: 0 <= i < |cs| ==> l'[i] == l[i];
  }

  /** The legs sum to the path length. */
  lemma {:induction false} LegsSumIsPathLength(cs: seq<Point>, dist: Metric)
    ensures Sum(Legs(cs, dist)) == PathLength(cs, dist)
    decreases |cs|
  {
    if |cs| == 1 {
      assert Legs(cs, dist) == [0.0];
    } else if |cs| >= 2 {
      var init, last := cs[..|cs| - 1], cs[|cs| - 1];
      assert cs == init + [last];
      LegsSnoc(init, last, dist);
      SumSnoc(Legs(init, dist), dist(last, init[|init| - 1]));
      LegsSumIsPathLength(init, dist);
    }
  }

  /** `add` is appending through the setter: it is the same as writing back
      the old coordinates with the point appended. */
  lemma AddIsSetAppend(h: Heap, r: Ref, p: Point)
    requires r in h.objects
    ensures Add(h, r, p).heap == SetCoordinates(h, r, GetCoordinates(h, r) + [p])
  {
  }

  /** Because `add` returns its receiver, chained calls `t.add(a).add(b)`
      append both points to the same trail, in call order. */
  lemma AddChain(h: Heap, r: Ref, a: Point, b: Point)
    requires r in h.objects
    ensures var s1 := Add(h, r, a);
            var s2 := Add(s1.heap, s1.ref, b);
            s2.ref == r && GetCoordinates(s2.heap, r) == GetCoordinates(h, r) + [a, b]
  {
  }

  /** A trail with a single point has total distance 0. */
  lemma TotalDistanceOnePoint(h: Heap, r: Ref, dist: Metric)
    requires r in h.objects && |GetCoordinates(h, r)| == 1
    ensures TotalDistance(h, r, dist) == Ok(0.0)
  {
  }

  /** Adding a point to a non-empty trail adds the distance from the new
      point to the former last point. */
  lemma TotalDistanceAfterAdd(h: Heap, r: Ref, p: Point, dist: Metric)
    requires r in h.objects && GetCoordinates(h, r) != []
    ensures var cs := GetCoordinates(h, r);
            TotalDistance(Add(h, r, p).heap, r, dist)
              == Ok(TotalDistance(h, r, dist).value + dist(p, cs[|cs| - 1]))
  {
    var cs := GetCoordinates(h, r);
    var cs' := GetCoordinates(Add(h, r, p).heap, r);
    assert cs' == cs + [p];
    assert cs'[..|cs'| - 1] == cs;
  }

  /** With every step of length 1, the path through `n` points has length `n - 1`. */
  lemma {:induction false} PathLengthUnitSteps(cs: seq<Point>, dist: Metric)
    requires cs != []
    requires forall i :: 0 < i < |cs| ==> dist(cs[i], cs[i - 1]) == 1.0
    ensures PathLength(cs, dist) == (|cs| - 1) as real
    decreases |cs|
  {
    if |cs| >= 2 {
      var init := cs[..|cs| - 1];
      assert forall i :: 0 < i < |init| ==> dist(init[i], init[i - 1]) == dist(cs[i], cs[i - 1]);
      PathLengthUnitSteps(init, dist);
    }
  }

  /** Points spaced one unit apart along a trail of `n` points give total
      distance `n - 1`. */
  lemma TotalDistanceUnitSteps(h: Heap, r: Ref, dist: Metric)
    requires r in h.objects && GetCoordinates(h, r) != []
    requires var cs := GetCoordinates(h, r);
             forall i :: 0 < i < |cs| ==> dist(cs[i], cs[i - 1]) == 1.0
    ensures TotalDistance(h, r, dist) == Ok((|GetCoordinates(h, r)| - 1) as real)
  {
    PathLengthUnitSteps(GetCoordinates(h, r), dist);
  }
}
