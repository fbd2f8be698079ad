/** `DBGraph`: a `ProtoGraph` whose members are `DBNode`s. The graph
    records its own name as an update source in every member table, and
    gathers the results its traversal recorded and the update times of its
    members. */
module DBGraphs {
  import opened Values
  import opened ProtoNodes
  import opened ProtoGraphs
  import opened Tables
  import opened DBNodes

  /** The arena ids of the nodes `ns`, in order. */
  function Ids(ns: seq<DBNode>): (r: seq<nat>)
    ensures |r| == |ns| && forall k :: 0 <= k < |ns| ==> r[k] == ns[k].id
  {
    seq(|ns|, k requires 0 <= k < |ns| => ns[k].id)
  }

  /** Every table of every node of `ns`. */
  ghost function TablesOf(ns: seq<DBNode>): set<Table> {
    set k, j | 0 <= k < |ns| && 0 <= j < |ns[k].tables| :: ns[k].tables[j]
  }

  // ------------------------------------------------------------ extending

  /** What `list.extend(v)` takes from `v`: the items of a list, or the
      characters of a string; None, numbers and booleans are not
      iterable. */
  function Items(v: Value): (r: Result<seq<Value>>)
    ensures r.Ok? <==> v.List? || v.Str?
    ensures r.Err? ==> r.error == TypeError
    ensures v.List? ==> r == Ok(v.items)
    ensures v.Str? ==> |r.value| == |v.s| && forall k :: 0 <= k < |v.s| ==> r.value[k] == Str([v.s[k]])
  {
    match v
    case List(items) => Ok(items)
    case Str(s) => Ok(seq(|s|, k requires 0 <= k < |s| => Str([s[k]])))
    case _ => Err(TypeError)
  }

  /** What each recorded result contributes. */
  function PerResult(rs: seq<(ResultKey, Value)>): (r: seq<Result<seq<Value>>>)
    ensures |r| == |rs| && forall k :: 0 <= k < |rs| ==> r[k] == Items(rs[k].1)
  {
    seq(|rs|, k requires 0 <= k < |rs| => Items(rs[k].1))
  }

  /** The recorded results `rs` extended one after the other into one
      list; the first result that is not iterable is a TypeError. */
  function Flattened(rs: seq<(ResultKey, Value)>): (r: Result<seq<Value>>)
  {
    Gather(PerResult(rs))
  }

  /** Flattening fails exactly when some recorded result is neither a
      list nor a string, and then with a TypeError. */
  lemma FlattenedFails(rs: seq<(ResultKey, Value)>)
    ensures Flattened(rs).Ok? <==> forall k :: 0 <= k < |rs| ==> rs[k].1.List? || rs[k].1.Str?
    ensures Flattened(rs).Err? ==> Flattened(rs).error == TypeError
  {
    GatherFirstFailure(PerResult(rs));
  }

  /** The items of the list results `rs`, concatenated in order. */
  function Joined(rs: seq<(ResultKey, Value)>): seq<Value>
    requires forall k :: 0 <= k < |rs| ==> rs[k].1.List?
    decreases |rs|
  {
    if rs == [] then [] else Joined(rs[..|rs| - 1]) + rs[|rs| - 1].1.items
  }

  /** When every recorded result is a list, flattening concatenates
      their items in the order the results were recorded. */
  lemma {:induction false} FlattenedLists(rs: seq<(ResultKey, Value)>)
    requires forall k :: 0 <= k < |rs| ==> rs[k].1.List?
    ensures Flattened(rs) == Ok(Joined(rs))
    decreases |rs|
  {
    if rs != [] {
      var n := |rs| - 1;
      FlattenedLists(rs[..n]);
      assert PerResult(rs)[..n] == PerResult(rs[..n]);
    }
  }

  /** The `msgs.extend(v)` loop over the recorded results. */
  method Extend(rs: seq<(ResultKey, Value)>) returns (r: Result<seq<Value>>)
    ensures r == Flattened(rs)
  {
    ghost var per := PerResult(rs);
    var msgs := [];
    var k := 0;
    while k < |rs|
      invariant 0 <= k <= |rs| && Gather(per[..k]) == Ok(msgs)
    {
      var items := Items(rs[k].1);
      GatherStep(per, k, msgs);
      if items.Err? {
        GatherPrefix(per, k + 1);
        return Err(items.error);
      }
      msgs := msgs + items.value;
      k := k + 1;
    }
    assert per[..k] == per;
    return Ok(msgs);
  }

  // ----------------------------------------------------------- update times

  /** Each node's update times for `source`. */
  function PerNode(ns: seq<DBNode>, source: Value): (r: seq<Result<seq<Option<int>>>>)
    reads TablesOf(ns)
    ensures |r| == |ns| && forall k :: 0 <= k < |ns| ==> r[k] == ns[k].UpdateTimes(source)
  {
    seq(|ns|, k requires 0 <= k < |ns| reads TablesOf(ns) => ns[k].UpdateTimes(source))
  }

  /** `update_times(source)` of the graph: the members' update times,
      member by member; the first member that fails is the answer. */
  function AllTimes(ns: seq<DBNode>, source: Value): (r: Result<seq<Option<int>>>)
    reads TablesOf(ns)
  {
    Gather(PerNode(ns, source))
  }

  /** The table lists of the nodes. */
  function TableLists(ns: seq<DBNode>): (r: seq<seq<Table>>)
    ensures |r| == |ns| && forall k :: 0 <= k < |ns| ==> r[k] == ns[k].tables
  {
    seq(|ns|, k requires 0 <= k < |ns| => ns[k].tables)
  }

  /** The graph's update times fail exactly when some member's do, with
      the first such member's error; otherwise there is one time per
      table of every member. */
  lemma AllTimesShape(ns: seq<DBNode>, source: Value)
    ensures AllTimes(ns, source).Ok? <==> forall k :: 0 <= k < |ns| ==> ns[k].UpdateTimes(source).Ok?
    ensures AllTimes(ns, source).Err? ==>
      exists k :: 0 <= k < |ns| && ns[k].UpdateTimes(source) == Err(AllTimes(ns, source).error)
    ensures AllTimes(ns, source).Ok? ==> |AllTimes(ns, source).value| == TotalLength(TableLists(ns))
  {
    GatherFirstFailure(PerNode(ns, source));
    GatherLength(PerNode(ns, source), TableLists(ns));
  }

  /** Records `source` at time 0 in every table of `ts`; a table listed
      twice ends up the same as one listed once. */
  method Stamp(ts: seq<Table>, source: Source)
    modifies ts
    ensures forall t :: t in ts ==> t.tab == old(t.tab) && t.lastUpdate == old(t.lastUpdate)[source := Some(0)]
  {
    var i := 0;
    while i < |ts|
      invariant 0 <= i <= |ts|
      invariant forall t :: t in ts ==> t.tab == old(t.tab)
      invariant forall t :: t in ts ==>
        t.lastUpdate == if t in ts[..i] then old(t.lastUpdate)[source := Some(0)] else old(t.lastUpdate)
    {
      ts[i].lastUpdate := ts[i].lastUpdate[source := Some(0)];
      i := i + 1;
    }
    assert ts[..i] == ts;
  }

  /** Records `source` at time 0 in every table of every node of `ns`. */
  method StampAll(ns: seq<DBNode>, source: Source)
    modifies TablesOf(ns)
    ensures forall t :: t in TablesOf(ns) ==> t.tab == old(t.tab) && t.lastUpdate == old(t.lastUpdate)[source := Some(0)]
  {
    ghost var done: set<Table> := {};
    var k := 0;
    while k < |ns|
      invariant 0 <= k <= |ns|
      invariant forall j, t :: 0 <= j < k && t in ns[j].tables ==> t in done
      invariant forall t :: t in TablesOf(ns) ==> t.tab == old(t.tab)
      invariant forall t :: t in TablesOf(ns) ==>
        t.lastUpdate == if t in done then old(t.lastUpdate)[source := Some(0)] else old(t.lastUpdate)
    {
      Stamp(ns[k].tables, source);
      done := done + set t | t in ns[k].tables;
      k := k + 1;
    }
  }

  // ------------------------------------------------------------- the graph

  class DBGraph {
    const graph: ProtoGraph
    /** The members, whose ids make up the node list. */
    const nodes: seq<DBNode>

    ghost predicate Valid()
      reads this, graph, graph.arena
    {
      graph.Valid() && graph.nodeList == Ids(nodes)
    }

    /** `DBGraph(name, node_list)`: the graph of the members, in order,
        with `environment["source"]` set to its name; every table of
        every member records the name as an update source at time 0. */
    constructor (a: Arena, name: string, members: seq<DBNode>)
      requires a.Valid() && forall k :: 0 <= k < |members| ==> a.IsNode(members[k].id)
      modifies a, TablesOf(members)
      ensures Valid() && nodes == members && graph.arena == a && graph.me == old(|a.names|)
      ensures a.names == old(a.names) + [name] && a.envs == old(a.envs) + [map["source" := Str(name)]]
      ensures graph.nodeList == Ids(members)
      ensures members != [] ==> graph.origins == [members[0].id]
      ensures members == [] ==> graph.origins == []
      ensures forall t :: t in TablesOf(members) ==>
        t.tab == old(t.tab) && t.lastUpdate == old(t.lastUpdate)[Key(Str(name)) := Some(0)]
    {
      var ids := Ids(members);
      var g := new ProtoGraph(a, name, ids);
      a.envs := a.envs[g.me := a.envs[g.me]["source" := Str(name)]];
      graph := g;
      nodes := members;
      new;
      StampAll(members, Key(Str(name)));
    }

    /** `graph(**kwargs)`: the traversal, then every result it recorded
        extended into one list, in the order they were recorded. When
        the traversal went through (`traversed`), the traversal lists are
        cleared and the answer is the flattening of the results. */
    method Call(kwargs: map<string, Value>, fuel: nat, op: Op) returns (r: Result<seq<Value>>, ghost traversed: bool)
      requires Valid()
      modifies graph, graph.arena
      ensures Valid()
      ensures graph.arena.names == old(graph.arena.names) && graph.arena.outs == old(graph.arena.outs)
      ensures graph.arena.envs[graph.me] == old(graph.arena.envs[graph.me]) + kwargs
      ensures !traversed ==> r.Err?
      ensures traversed ==> graph.calledNodes == [] && graph.traversed == [] && r == Flattened(graph.callReturns)
    {
      var res := graph.Call(kwargs, fuel, op);
      if res.Err? {
        return Err(res.error), false;
      }
      r := Extend(graph.callReturns);
      traversed := true;
    }

    /** `update_times(source)`: the loop extending the members' update
        times. */
    method UpdateTimes(source: Value) returns (r: Result<seq<Option<int>>>)
      ensures r == AllTimes(nodes, source)
    {
      ghost var per := PerNode(nodes, source);
      var times := [];
      var k := 0;
      while k < |nodes|
        invariant 0 <= k <= |nodes| && Gather(per[..k]) == Ok(times)
      {
        var t := nodes[k].UpdateTimes(source);
        GatherStep(per, k, times);
        if t.Err? {
          GatherPrefix(per, k + 1);
          assert per == PerNode(nodes, source);
          return Err(t.error);
        }
        times := times + t.value;
        k := k + 1;
      }
      assert per[..k] == per;
      assert per == PerNode(nodes, source);
      return Ok(times);
    }
  }
}
