/** `Logging.logParam` and `Logging.logMethodParams` of app.ts.

    `logParam` records, per method name, the positions of the parameters it
    decorates; the record lives in reflection metadata on the class
    prototype, which here is an explicit table passed in and returned.
    `logMethodParams` reads the positions for its method once, when the
    class is defined, and wraps the method so that each call first logs the
    arguments at those positions and then runs the original body.

    A JavaScript `Set` iterates in insertion order and the wrapper spreads it
    into an array, so a position set is modelled as a duplicate-free sequence
    in insertion order; `Elements` gives the set it stands for.
 */
module ParamTags {
  import opened Outcomes

  /** Method name to the positions of its tagged parameters. */
  type Table = map<string, seq<nat>>

  /** One application of `@logParam`: method name and parameter position. */
  datatype Tag = Tag(key: string, index: nat)

  /** A call of a wrapped method: the arguments it logged (if it logged) and
      what it returned or threw. */
  datatype Call<A, R> = Call(logged: Option<seq<A>>, outcome: Result<R>)

  /** No position occurs twice. */
  predicate Distinct(s: seq<nat>)
  {
    forall i, j :: 0 <= i < j < |s| ==> s[i] != s[j]
  }

  /** Every entry of the table is a proper set. */
  predicate WellFormed(t: Table)
  {
    forall k :: k in t ==> Distinct(t[k])
  }

  /** The set of positions an entry stands for. */
  function Elements(s: seq<nat>): set<nat>
  {
    set x | x in s
  }

  /** The table as `logParam` finds it: missing metadata reads as empty. */
  function Recorded(table: Option<Table>): Table
  {
    if table.None? then map[] else table.value
  }

  /** `logParam(target, key, index)`: adds `index` to the positions of `key`,
      creating the entry when `key` has none. */
  function LogParam(table: Option<Table>, key: string, index: nat): (t: Table)
    ensures key in t && index in t[key]
    ensures key !in Recorded(table) ==> t[key] == [index]
    ensures key in Recorded(table) ==>
              Elements(t[key]) == Elements(Recorded(table)[key]) + {index}
    ensures key in Recorded(table) ==>
              |Recorded(table)[key]| <= |t[key]|
              && t[key][..|Recorded(table)[key]|] == Recorded(table)[key]
    ensures t.Keys == Recorded(table).Keys + {key}
    ensures forall k :: k in Recorded(table) && k != key ==> t[k] == Recorded(table)[k]
    ensures WellFormed(Recorded(table)) ==> WellFormed(t)
  {
    var before := Recorded(table);
    if key !in before then before[key := [index]]
    else if index in before[key] then before
    else before[key := before[key] + [index]]
  }

  /** Metadata that was never defined behaves like an empty table. */
  lemma LogParamMissingTable(key: string, index: nat)
    ensures LogParam(None, key, index) == LogParam(Some(map[]), key, index)
  {
  }

  /** Tagging the same parameter twice records it once. */
  lemma LogParamIdempotent(table: Option<Table>, key: string, index: nat)
    ensures LogParam(Some(LogParam(table, key, index)), key, index) == LogParam(table, key, index)
  {
  }

  /** The table after the decorators in `tags` have run, in order. */
  function LogParams(table: Option<Table>, tags: seq<Tag>): Table
  {
    if tags == [] then Recorded(table)
    else
      var last := tags[|tags| - 1];
      LogParam(Some(LogParams(table, tags[..|tags| - 1])), last.key, last.index)
  }

  /** The positions `tags` mention for `key`. */
  function TaggedAt(tags: seq<Tag>, key: string): set<nat>
  {
    set t | t in tags && t.key == key :: t.index
  }

  /** Starting from no metadata, a method has an entry exactly when one of
      its parameters was tagged, and the entry holds exactly the tagged
      positions, each once. */
  lemma {:induction false} LogParamsRecordsTags(tags: seq<Tag>, key: string)
    ensures WellFormed(LogParams(None, tags))
    ensures key in LogParams(None, tags) <==> exists t :: t in tags && t.key == key
    ensures key in LogParams(None, tags) ==> Elements(LogParams(None, tags)[key]) == TaggedAt(tags, key)
    decreases |tags|
  {
    if tags != [] {
      var init, last := tags[..|tags| - 1], tags[|tags| - 1];
      assert tags == init + [last];
      LogParamsRecordsTags(init, key);
      assert forall t :: t in tags <==> t in init || t == last;
      if key == last.key {
        assert TaggedAt(tags, key) == TaggedAt(init, key) + {last.index};
      } else {
        assert TaggedAt(tags, key) == TaggedAt(init, key);
      }
    }
  }

  /** `logMethodParams` at class definition: the positions recorded for
      `key`, copied once. Reading the metadata of a prototype that has none,
      or spreading the missing entry of an untagged method, throws. */
  function LogMethodParams(table: Option<Table>, key: string): (r: Result<seq<nat>>)
    ensures r.Ok? <==> table.Some? && key in table.value
    ensures r.Ok? ==> r.value == table.value[key]
    ensures r.Err? ==> r.error == UndefinedValue
  {
    if table.None? || key !in table.value then Err(UndefinedValue)
    else Ok(table.value[key])
  }

  /** Once a parameter of `key` has been tagged, decorating the method
      succeeds and its copy holds that position and every one recorded before. */
  lemma LogMethodParamsAfterLogParam(table: Option<Table>, key: string, index: nat)
    ensures var r := LogMethodParams(Some(LogParam(table, key, index)), key);
            && r.Ok?
            && index in r.value
            && (key in Recorded(table) ==> Elements(r.value) == Elements(Recorded(table)[key]) + {index})
  {
  }

  /** Every position names an argument that was passed. */
  predicate Covers<A>(positions: seq<nat>, args: seq<A>)
  {
    forall j :: 0 <= j < |positions| ==> positions[j] < |args|
  }

  /** `indexSet.map(index => args[index])`, failing at the first position
      with no argument (its `.toString()` is a call on `undefined`). */
  function Select<A>(args: seq<A>, positions: seq<nat>): (r: Option<seq<A>>)
    ensures r.Some? <==> Covers(positions, args)
    ensures r.Some? ==> |r.value| == |positions|
    ensures r.Some? ==> forall j :: 0 <= j < |positions| ==> r.value[j] == args[positions[j]]
  {
    if positions == [] then Some([])
    else if positions[0] >= |args| then None
    else match Select(args, positions[1..])
      case None => None
      case Some(rest) => Some([args[positions[0]]] + rest)
  }

  /** The wrapped method: with logging on, it first logs the arguments at
      the copied positions; then it calls the original body with the same
      receiver and arguments and returns what that returns. */
  function Invoke<S, A, R>(logging: bool, positions: seq<nat>,
                           original: (S, seq<A>) -> Result<R>,
                           self: S, args: seq<A>): (c: Call<A, R>)
    ensures c.logged.Some? ==> logging
    ensures (!logging || Covers(positions, args)) ==> c.outcome == original(self, args)
    ensures logging && Covers(positions, args) ==>
              && c.logged.Some?
              && |c.logged.value| == |positions|
              && forall j :: 0 <= j < |positions| ==> c.logged.value[j] == args[positions[j]]
    ensures logging && !Covers(positions, args) ==>
              c.logged.None? && c.outcome == Err(UndefinedValue)
  {
    if !logging then Call(None, original(self, args))
    else match Select(args, positions)
      case None => Call(None, Err(UndefinedValue))
      case Some(shown) => Call(Some(shown), original(self, args))
  }

  /** The logging flag never changes what a call returns when every tagged
      position has an argument; switched off, nothing is logged. */
  lemma InvokeFlagTransparent<S, A, R>(positions: seq<nat>,
                                       original: (S, seq<A>) -> Result<R>,
                                       self: S, args: seq<A>)
    requires Covers(positions, args)
    ensures Invoke(true, positions, original, self, args).outcome
            == Invoke(false, positions, original, self, args).outcome
    ensures Invoke(false, positions, original, self, args).logged.None?
  {
  }
}
