/** `ProtoGraph`: a node that owns a list of member nodes and runs them by
    a recursive traversal from its origins. A member is invoked once its
    predecessors have all completed, at most once per call; traffic that
    reaches a member before that is parked in its delayed traffic. */
module ProtoGraphs {
  import opened Values
  import opened ProtoNodes

  /** `name + "-" + nodeid`, the key of a recorded result. */
  datatype ResultKey = ResultKey(name: string, id: nat)

  /** `((name, nodeid), (next.name, next.nodeid))`, a followed edge. */
  type Edge = (LinkKey, LinkKey)

  /** What invoking node `n` with keyword arguments `kw` returns. Invoking a
      node also marks it completed at its successors (`ProtoNode.__call__`). */
  type Op = (nat, map<string, Value>) -> Value

  /** Every row of a list of dict rows updated by `t`. */
  function MergeRows(rows: seq<Value>, t: map<string, Value>): (r: seq<Value>)
    requires forall i :: 0 <= i < |rows| ==> rows[i].Dict?
    ensures |r| == |rows| && forall i :: 0 <= i < |r| ==> r[i] == Dict(rows[i].d + t)
  {
    seq(|rows|, i requires 0 <= i < |rows| => Dict(rows[i].d + t))
  }

  /** Parking traffic that arrives while a node is not invoked: dict traffic
      merges into a dict, or into every row of a list; list traffic extends
      the list, replacing a dict by an empty list first. */
  function Park(d: Value, t: Value): (r: Result<Value>)
    ensures t.Dict? && d.Dict? ==> r == Ok(Dict(d.d + t.d))
    ensures t.Dict? && d.List? && (forall i :: 0 <= i < |d.items| ==> d.items[i].Dict?) ==>
      r.Ok? && r.value.List? && |r.value.items| == |d.items| &&
      forall i :: 0 <= i < |d.items| ==> r.value.items[i] == Dict(d.items[i].d + t.d)
    ensures t.Dict? && d.List? && (exists i :: 0 <= i < |d.items| && !d.items[i].Dict?) ==> r == Err(TypeError)
    ensures t.List? && d.Dict? ==> r == Ok(List(t.items))
    ensures t.List? && d.List? ==> r == Ok(List(d.items + t.items))
    ensures (t.Dict? || t.List?) && !d.Dict? && !d.List? ==> r == Err(AttributeError)
    ensures !t.Dict? && !t.List? ==> r == Ok(d)
  {
    match t
    case Dict(td) =>
      (match d
       case Dict(dd) => Ok(Dict(dd + td))
       case List(rows) =>
         if forall i :: 0 <= i < |rows| ==> rows[i].Dict? then
           Ok(List(MergeRows(rows, td)))
         else Err(TypeError)
       case _ => Err(AttributeError))
    case List(ts) =>
      (match d
       case Dict(_) => Ok(List(ts))
       case List(rows) => Ok(List(rows + ts))
       case _ => Err(AttributeError))
    case _ => Ok(d)
  }

  /** Parking two dicts in turn parks their merge. */
  lemma ParkDictTwice(d: Value, t1: map<string, Value>, t2: map<string, Value>)
    requires d.Dict?
    ensures Park(d, Dict(t1)).Ok? && Park(Park(d, Dict(t1)).value, Dict(t2)) == Park(d, Dict(t1 + t2))
  {
    assert d.d + t1 + t2 == d.d + (t1 + t2);
  }

  /** Parking two dicts in turn into a list of rows parks their merge. */
  lemma ParkRowsTwice(rows: seq<Value>, t1: map<string, Value>, t2: map<string, Value>)
    requires forall i :: 0 <= i < |rows| ==> rows[i].Dict?
    ensures Park(List(rows), Dict(t1)).Ok?
    ensures Park(Park(List(rows), Dict(t1)).value, Dict(t2)) == Park(List(rows), Dict(t1 + t2))
  {
    var once := MergeRows(rows, t1);
    var twice := MergeRows(once, t2);
    var merged := MergeRows(rows, t1 + t2);
    forall i | 0 <= i < |rows|
      ensures twice[i] == merged[i]
    {
      assert rows[i].d + t1 + t2 == rows[i].d + (t1 + t2);
    }
    assert twice == merged;
  }

  /** Parking two lists in turn parks their concatenation. */
  lemma ParkListTwice(d: Value, l1: seq<Value>, l2: seq<Value>)
    requires d.Dict? || d.List?
    ensures Park(d, List(l1)).Ok? && Park(Park(d, List(l1)).value, List(l2)) == Park(d, List(l1 + l2))
  {
    if d.List? {
      assert d.items + l1 + l2 == d.items + (l1 + l2);
    }
  }

  /** The traffic/delayed-traffic shapes on which a ready node is invoked. */
  predicate Invocable(traffic: Value, delayed: Value) {
    ((traffic.Dict? || traffic.List?) && delayed.Dict?) || (traffic.Dict? && delayed.List?)
  }

  /** The node's environment after merging the first `k` rows in turn. */
  function EnvAfterRows(env: map<string, Value>, rows: seq<Value>, k: nat): map<string, Value>
    requires k <= |rows| && forall i :: 0 <= i < k ==> rows[i].Dict?
  {
    if k == 0 then env else EnvAfterRows(env, rows, k - 1) + rows[k - 1].d
  }

  /** The keyword arguments of an invocation: graph environment, node
      environment, two traffic parts, graph propagation and node
      propagation, later entries winning. */
  function Args(g: map<string, Value>, env: map<string, Value>, t1: map<string, Value>, t2: map<string, Value>,
                pg: map<string, Value>, pn: map<string, Value>): map<string, Value>
  {
    g + env + t1 + t2 + pg + pn
  }

  /** Keyword arguments of the `j`-th row invocation, where the node's
      environment started as `env0` and has taken the first `j + 1` rows. */
  function RowArgs(g: map<string, Value>, env0: map<string, Value>, rows: seq<Value>, j: nat, extra: map<string, Value>,
                   pg: map<string, Value>, pn: map<string, Value>): map<string, Value>
    requires j < |rows| && forall i :: 0 <= i <= j ==> rows[i].Dict?
  {
    Args(g, EnvAfterRows(env0, rows, j + 1), rows[j].d, extra, pg, pn)
  }

  /** Completion lists after node `a` has been invoked `k` times: each
      successor in `succ` gains `k` entries `a`. */
  function Marked(c: seq<seq<nat>>, succ: seq<nat>, a: nat, k: nat): (r: seq<seq<nat>>)
    ensures |r| == |c| && forall x :: 0 <= x < |c| ==> c[x] <= r[x]
  {
    seq(|c|, x requires 0 <= x < |c| => c[x] + (if x in succ then Repeat(a, k) else []))
  }

  lemma MarkedTwice(c: seq<seq<nat>>, succ: seq<nat>, a: nat, k: nat)
    ensures Marked(Marked(c, succ, a, k), succ, a, 1) == Marked(c, succ, a, k + 1)
  {
    var l := Marked(Marked(c, succ, a, k), succ, a, 1);
    var r := Marked(c, succ, a, k + 1);
    forall x | 0 <= x < |c|
      ensures l[x] == r[x]
    {
      assert Repeat(a, k + 1) == Repeat(a, k) + [a];
      assert Repeat(a, 1) == [a];
    }
  }

  lemma MarkedZero(c: seq<seq<nat>>, succ: seq<nat>, a: nat)
    ensures Marked(c, succ, a, 0) == c
  {
    var m := Marked(c, succ, a, 0);
    assert forall x :: 0 <= x < |c| ==> m[x] == c[x];
  }

  /** One `ProtoNode.__call__` of `a` is one round of marking. */
  lemma MarkedOnce(c0: seq<seq<nat>>, c1: seq<seq<nat>>, succ: seq<nat>, a: nat)
    requires |c1| == |c0|
    requires forall x :: 0 <= x < |c1| ==> c1[x] == c0[x] + (if x in succ then [a] else [])
    ensures c1 == Marked(c0, succ, a, 1)
  {
    var m := Marked(c0, succ, a, 1);
    assert Repeat(a, 1) == [a];
    assert forall x :: 0 <= x < |c0| ==> m[x] == c1[x];
  }

  /** The nodes of `ns` that are not in `ch`, in order. */
  function Outside(ns: seq<nat>, ch: seq<nat>): (r: seq<nat>)
    ensures forall p :: p in r <==> p in ns && p !in ch
    ensures |r| <= |ns|
  {
    if ns == [] then []
    else
      var p := ns[|ns| - 1];
      assert forall m :: m in ns <==> m in ns[..|ns| - 1] || m == p by {
        assert ns == ns[..|ns| - 1] + [p];
      }
      Outside(ns[..|ns| - 1], ch) + (if p in ch then [] else [p])
  }

  class ProtoGraph {
    const arena: Arena
    /** The graph's own node in the arena (a `ProtoGraph` is a `ProtoNode`). */
    const me: nat
    /** `_node_list`. */
    var nodeList: seq<nat>
    var origins: seq<nat>
    /** `_call_returns`, in insertion order. */
    var callReturns: seq<(ResultKey, Value)>
    /** `_called_nodes`. */
    var calledNodes: seq<nat>
    /** `_traversed`. */
    var traversed: seq<Edge>

    function Key(n: nat): ResultKey
      requires arena.Valid() && arena.IsNode(n)
      reads arena
    {
      ResultKey(arena.names[n], n)
    }

    ghost predicate Valid()
      reads this, arena
    {
      && arena.Valid() && arena.IsNode(me)
      && AllBelow(nodeList, |arena.names|) && AllBelow(origins, |arena.names|)
      && me !in nodeList
      && NoDup(calledNodes) && NoDup(traversed)
      && (forall n :: n in calledNodes ==> n in nodeList)
      && Barrier(calledNodes, arena.ins, arena.completed)
    }

    /** What a traversal never changes. */
    twostate predicate Kept()
      reads this, arena
    {
      && arena.names == old(arena.names) && arena.outs == old(arena.outs)
      && arena.ins == old(arena.ins) && arena.linkTraffic == old(arena.linkTraffic)
      && arena.attributes == old(arena.attributes)
      && nodeList == old(nodeList) && origins == old(origins)
      && |arena.envs| == old(|arena.envs|) && |arena.delayed| == old(|arena.delayed|)
      && |arena.propagate| == old(|arena.propagate|)
      && (forall x :: 0 <= x < |arena.envs| && x !in nodeList ==> arena.envs[x] == old(arena.envs[x]))
    }

    /** What a traversal only ever extends. */
    twostate predicate Grew()
      reads this, arena
    {
      && old(calledNodes) <= calledNodes && old(traversed) <= traversed
      && |arena.completed| == old(|arena.completed|)
      && (forall x :: 0 <= x < |arena.completed| ==> old(arena.completed[x]) <= arena.completed[x])
    }

    /** `ProtoGraph(name, node_list)`: origins is the first member, if any. */
    constructor (a: Arena, name: string, members: seq<nat>)
      requires a.Valid() && forall n :: n in members ==> a.IsNode(n)
      modifies a
      ensures Valid() && arena == a && me == old(|a.names|)
      ensures a.names == old(a.names) + [name] && a.envs == old(a.envs) + [map[]]
      ensures nodeList == members
      ensures members != [] ==> origins == [members[0]]
      ensures members == [] ==> origins == []
      ensures callReturns == [] && calledNodes == [] && traversed == []
    {
      var id := a.NewNode(name, map[]);
      arena := a;
      me := id;
      nodeList := members;
      origins := if members != [] then [members[0]] else [];
      assert members != [] ==> members[0] in members;
      callReturns, calledNodes, traversed := [], [], [];
    }

    /** `graph[index]`: a non-integer index is a ValueError (a bool is the
        integer 0 or 1); Python's negative indices count from the end, and
        an index out of range is an IndexError. */
    function GetItem(index: Value): (r: Result<nat>)
      reads this
      ensures !index.Int? && !index.Bool? ==> r == Err(ValueError)
      ensures index.Int? ==> (r.Ok? <==> -|nodeList| <= index.i < |nodeList|)
      ensures r.Ok? ==> r.value in nodeList
      ensures index.Int? && 0 <= index.i < |nodeList| ==> r == Ok(nodeList[index.i])
      ensures index.Int? && r.Ok? && index.i < 0 ==> r == Ok(nodeList[|nodeList| + index.i])
      ensures index.Bool? ==> (r.Ok? <==> |nodeList| > (if index.b then 1 else 0))
      ensures index.Bool? && r.Ok? ==> r == Ok(nodeList[if index.b then 1 else 0])
      ensures r.Err? && (index.Int? || index.Bool?) ==> r.error == IndexError
    {
      var i := match index
        case Int(i) => Some(i)
        case Bool(b) => Some(if b then 1 else 0)
        case _ => None;
      if i.None? then Err(ValueError)
      else
        match PyIndex(|nodeList|, i.value)
        case None => Err(IndexError)
        case Some(k) => Ok(nodeList[k])
    }

    /** `add_node(node)`: a non-node is a ValueError; no de-duplication. */
    method AddNode(node: Option<nat>) returns (r: Outcome)
      requires Valid() && (node.Some? ==> arena.IsNode(node.value) && node.value != me)
      modifies this
      ensures Valid()
      ensures r.Fail? <==> node.None?
      ensures r.Fail? ==> r.error == ValueError && nodeList == old(nodeList)
      ensures r.Pass? ==> nodeList == old(nodeList) + [node.value]
      ensures origins == old(origins) && calledNodes == old(calledNodes) && traversed == old(traversed)
      ensures callReturns == old(callReturns)
    {
      if node.None? {
        return Fail(ValueError);
      }
      nodeList := nodeList + [node.value];
      return Pass;
    }

    /** `extend(other)`: only another graph is accepted. */
    method Extend(other: Option<ProtoGraph>) returns (r: Outcome)
      requires Valid()
      requires other.Some? ==> other.value.arena == arena && me !in other.value.nodeList
      requires other.Some? ==> forall n :: n in other.value.nodeList ==> arena.IsNode(n)
      modifies this
      ensures Valid()
      ensures r.Fail? <==> other.None?
      ensures r.Fail? ==> r.error == ValueError && nodeList == old(nodeList)
      ensures r.Pass? ==> nodeList == old(nodeList) + old(other.value.nodeList)
      ensures origins == old(origins) && calledNodes == old(calledNodes) && traversed == old(traversed)
      ensures callReturns == old(callReturns)
    {
      if other.None? {
        return Fail(ValueError);
      }
      nodeList := nodeList + other.value.nodeList;
      return Pass;
    }

    /** `index(node)`: the position of the node's first occurrence in the
        member list; ValueError when it is not a member. */
    function Index(node: nat): (r: Result<nat>)
      reads this
      ensures r.Err? <==> node !in nodeList
      ensures r.Err? ==> r.error == ValueError
      ensures r.Ok? ==> r.value < |nodeList| && nodeList[r.value] == node
      ensures r.Ok? ==> forall j :: 0 <= j < r.value ==> nodeList[j] != node
    {
      if node in nodeList then Ok(IndexOf(nodeList, node)) else Err(ValueError)
    }

    /** `self == other`. A `ProtoGraph` iterates like a `ProtoNode`, over its
        own node's successors: the graphs are equal when the other is a
        graph with as many members and its node leads to every successor of
        this graph's node. Which nodes are members plays no part. */
    method Eq(other: Option<ProtoGraph>) returns (r: bool)
      requires Valid() && (other.Some? ==> other.value.arena == arena && arena.IsNode(other.value.me))
      ensures r <==> (other.Some? && |nodeList| == |other.value.nodeList| &&
        forall n :: n in arena.outs[me] ==> n in arena.outs[other.value.me])
    {
      if other.None? || |nodeList| != |other.value.nodeList| {
        return false;
      }
      var succ := arena.outs[me];
      var i := 0;
      while i < |succ|
        invariant 0 <= i <= |succ| && forall j :: 0 <= j < i ==> succ[j] in arena.outs[other.value.me]
      {
        if succ[i] !in arena.outs[other.value.me] {
          return false;
        }
        i := i + 1;
      }
      return true;
    }

    /** The successors of the nodes of `ns`, node by node. */
    ghost function Successors(ns: seq<nat>): seq<nat>
      requires arena.Valid() && AllBelow(ns, |arena.outs|)
      reads arena
    {
      if ns == [] then []
      else
        AllBelowPrefix(ns, |ns| - 1, |arena.outs|);
        AllBelowPrefix(ns, |ns|, |arena.outs|);
        Successors(ns[..|ns| - 1]) + arena.outs[ns[|ns| - 1]]
    }

    lemma {:induction false} SuccessorsIn(ns: seq<nat>, x: nat)
      requires arena.Valid() && AllBelow(ns, |arena.outs|)
      ensures x in Successors(ns) <==> exists m :: m in ns && x in arena.outs[m]
    {
      if ns != [] {
        var k := |ns| - 1;
        assert forall m :: m in ns <==> m in ns[..k] || m == ns[k] by {
          assert ns == ns[..k] + [ns[k]];
        }
        SuccessorsIn(ns[..k], x);
      }
    }

    /** `find_origins()`: `for node in self` walks the graph's own
        successors, so the origins are those successors that no successor
        leads to, in order; the member list plays no part. */
    method FindOrigins() returns (r: seq<nat>)
      requires Valid()
      ensures r == Outside(arena.outs[me], Successors(arena.outs[me]))
      ensures forall p :: p in r <==> p in arena.outs[me] && forall m :: m in arena.outs[me] ==> p !in arena.outs[m]
    {
      var succ := arena.outs[me];
      var ch := [];
      var i := 0;
      while i < |succ|
        invariant 0 <= i <= |succ| && AllBelow(succ[..i], |arena.outs|)
        invariant ch == Successors(succ[..i])
      {
        assert succ[..i + 1] == succ[..i] + [succ[i]];
        assert succ[i] in arena.outs[me];
        ch := ch + arena.outs[succ[i]];
        i := i + 1;
      }
      assert succ[..i] == succ;
      r := [];
      i := 0;
      while i < |succ|
        invariant 0 <= i <= |succ| && r == Outside(succ[..i], ch)
      {
        assert succ[..i + 1][..i] == succ[..i];
        if succ[i] !in ch {
          r := r + [succ[i]];
        }
        i := i + 1;
      }
      assert succ[..i] == succ;
      forall p
        ensures p in r <==> p in succ && forall m :: m in succ ==> p !in arena.outs[m]
      {
        SuccessorsIn(succ, p);
      }
    }

    /** `merge(other)`: when a successor of this graph's node shares a name
        with a successor of the other graph's node, every successor of the
        other joins the member list and the answer is true. The test
        `new_node._name not in self` compares a string with nodes, which is
        never equal, so each of them is added and the relinking branch is
        never taken. */
    method Merge(other: ProtoGraph) returns (r: bool)
      requires Valid() && other.arena == arena && arena.IsNode(other.me) && me !in arena.outs[other.me]
      modifies this
      ensures Valid()
      ensures r <==> Meet(arena.NamesOf(arena.outs[me]), arena.NamesOf(arena.outs[other.me]))
      ensures nodeList == if r then old(nodeList) + arena.outs[other.me] else old(nodeList)
      ensures origins == old(origins) && calledNodes == old(calledNodes) && traversed == old(traversed)
      ensures callReturns == old(callReturns)
    {
      if !Meet(arena.NamesOf(arena.outs[me]), arena.NamesOf(arena.outs[other.me])) {
        return false;
      }
      var succ := arena.outs[other.me];
      var i := 0;
      while i < |succ|
        invariant 0 <= i <= |succ| && Valid() && nodeList == old(nodeList) + succ[..i]
        invariant origins == old(origins) && calledNodes == old(calledNodes) && traversed == old(traversed)
        invariant callReturns == old(callReturns)
      {
        assert succ[i] in arena.outs[other.me];
        var _ := AddNode(Some(succ[i]));
        assert succ[..i + 1] == succ[..i] + [succ[i]];
        i := i + 1;
      }
      assert succ[..i] == succ;
      return true;
    }

    /** Keyword arguments of one invocation of `n`, with the two traffic
        parts `t1` and `t2`. */
    function Kwargs(n: nat, t1: map<string, Value>, t2: map<string, Value>): map<string, Value>
      requires arena.Valid() && arena.IsNode(n) && arena.IsNode(me)
      reads arena
    {
      Args(arena.envs[me], arena.envs[n], t1, t2, arena.propagate[me], arena.propagate[n])
    }

    /** Invokes `n` once: the node is marked completed at its successors and
        `op` gives its return value. */
    method InvokeOnce(n: nat, kw: map<string, Value>, op: Op) returns (res: Value)
      requires Valid() && n in nodeList
      modifies arena
      ensures Valid() && Kept() && Grew()
      ensures res == op(n, kw)
      ensures arena.envs == old(arena.envs) && arena.delayed == old(arena.delayed)
      ensures arena.propagate == old(arena.propagate)
      ensures arena.completed == Marked(old(arena.completed), arena.outs[n], n, 1)
    {
      arena.Call(n);
      MarkedOnce(old(arena.completed), arena.completed, arena.outs[n], n);
      ReadyAfterGrowth(arena.ins, old(arena.completed), arena.completed, calledNodes);
      res := op(n, kw);
    }

    /** One row invocation: the row is merged into the node's environment,
        then the node is invoked with the row and the `extra` traffic. */
    method InvokeRow(n: nat, row: map<string, Value>, extra: map<string, Value>, op: Op) returns (res: Value)
      requires Valid() && n in nodeList
      modifies arena
      ensures Valid() && Kept() && Grew()
      ensures arena.envs == old(arena.envs)[n := old(arena.envs[n]) + row]
      ensures arena.delayed == old(arena.delayed) && arena.propagate == old(arena.propagate)
      ensures arena.completed == Marked(old(arena.completed), arena.outs[n], n, 1)
      ensures res == op(n, Args(old(arena.envs[me]), old(arena.envs[n]) + row, row, extra,
                                old(arena.propagate[me]), old(arena.propagate[n])))
    {
      arena.envs := arena.envs[n := arena.envs[n] + row];
      res := InvokeOnce(n, Kwargs(n, row, extra), op);
    }

    /** The row loop of `_follow`: invokes `n` once on each row of `rows`,
        first merging the row into the node's environment. A row that is
        not a dict stops the loop with AttributeError. */
    method RunRows(n: nat, rows: seq<Value>, extra: map<string, Value>, op: Op)
      returns (results: seq<Value>, r: Outcome)
      requires Valid() && n in nodeList
      modifies arena
      ensures Valid() && Kept() && Grew()
      ensures arena.delayed == old(arena.delayed) && arena.propagate == old(arena.propagate)
      ensures r.Pass? <==> forall i :: 0 <= i < |rows| ==> rows[i].Dict?
      ensures r.Fail? ==> r.error == AttributeError
      ensures |results| <= |rows| && (r.Pass? ==> |results| == |rows|)
      ensures forall i :: 0 <= i < |results| ==> rows[i].Dict?
      ensures arena.envs == old(arena.envs)[n := EnvAfterRows(old(arena.envs[n]), rows, |results|)]
      ensures forall j :: 0 <= j < |results| ==>
        results[j] == op(n, RowArgs(old(arena.envs[me]), old(arena.envs[n]), rows, j, extra, old(arena.propagate[me]), old(arena.propagate[n])))
      ensures arena.completed == Marked(old(arena.completed), arena.outs[n], n, |results|)
    {
      var env0 := arena.envs[n];
      var g, pg, pn := arena.envs[me], arena.propagate[me], arena.propagate[n];
      results := [];
      MarkedZero(arena.completed, arena.outs[n], n);
      var i := 0;
      while i < |rows|
        invariant Valid()
        invariant arena.names == old(arena.names) && arena.outs == old(arena.outs) && arena.ins == old(arena.ins)
        invariant arena.linkTraffic == old(arena.linkTraffic) && arena.attributes == old(arena.attributes)
        invariant 0 <= i <= |rows| && |results| == i
        invariant forall j :: 0 <= j < i ==> rows[j].Dict?
        invariant arena.delayed == old(arena.delayed) && arena.propagate == old(arena.propagate)
        invariant arena.envs == old(arena.envs)[n := EnvAfterRows(env0, rows, i)]
        invariant forall j :: 0 <= j < i ==> results[j] == op(n, RowArgs(g, env0, rows, j, extra, pg, pn))
        invariant arena.completed == Marked(old(arena.completed), arena.outs[n], n, i)
      {
        if !rows[i].Dict? {
          return results, Fail(AttributeError);
        }
        var res := InvokeRow(n, rows[i].d, extra, op);
        MarkedTwice(old(arena.completed), arena.outs[n], n, i);
        assert EnvAfterRows(env0, rows, i + 1) == EnvAfterRows(env0, rows, i) + rows[i].d;
        assert res == op(n, RowArgs(g, env0, rows, i, extra, pg, pn));
        results := results + [res];
        i := i + 1;
      }
      r := Pass;
    }

    /** A row branch of `_follow`: the node's results are recorded as the
        list of its row results, as far as the loop got. */
    method InvokeRows(n: nat, rows: seq<Value>, extra: map<string, Value>, op: Op)
      returns (results: seq<Value>, r: Outcome)
      requires Valid() && n in nodeList
      modifies this, arena
      ensures Valid() && Kept() && Grew()
      ensures calledNodes == old(calledNodes) && traversed == old(traversed)
      ensures arena.delayed == old(arena.delayed) && arena.propagate == old(arena.propagate)
      ensures r.Pass? <==> forall i :: 0 <= i < |rows| ==> rows[i].Dict?
      ensures r.Fail? ==> r.error == AttributeError
      ensures |results| <= |rows| && (r.Pass? ==> |results| == |rows|)
      ensures forall i :: 0 <= i < |results| ==> rows[i].Dict?
      ensures arena.envs == old(arena.envs)[n := EnvAfterRows(old(arena.envs[n]), rows, |results|)]
      ensures forall j :: 0 <= j < |results| ==>
        results[j] == op(n, RowArgs(old(arena.envs[me]), old(arena.envs[n]), rows, j, extra, old(arena.propagate[me]), old(arena.propagate[n])))
      ensures callReturns == AssocSet(old(callReturns), old(Key(n)), List(results))
      ensures arena.completed == Marked(old(arena.completed), arena.outs[n], n, |results|)
    {
      var key := Key(n);
      var before := callReturns;
      callReturns := AssocSet(callReturns, key, List([]));
      results, r := RunRows(n, rows, extra, op);
      callReturns := AssocSet(before, key, List(results));
    }

    /** The invocation in the two dict branches of `_follow`: with empty
        traffic the node is invoked on its delayed traffic; otherwise the
        traffic is first merged into its environment and passed before the
        delayed traffic. Both amount to one invocation on the merged
        environment. */
    method DictCall(n: nat, traffic: map<string, Value>, delayed: map<string, Value>, op: Op) returns (res: Value)
      requires Valid() && n in nodeList
      modifies arena
      ensures Valid() && Kept() && Grew()
      ensures arena.delayed == old(arena.delayed) && arena.propagate == old(arena.propagate)
      ensures arena.envs == old(arena.envs)[n := old(arena.envs[n]) + traffic]
      ensures arena.completed == Marked(old(arena.completed), arena.outs[n], n, 1)
      ensures res == op(n, Args(old(arena.envs[me]), old(arena.envs[n]) + traffic, traffic, delayed, old(arena.propagate[me]), old(arena.propagate[n])))
    {
      if traffic == map[] {
        assert arena.envs[n] + traffic == arena.envs[n];
        assert arena.envs == arena.envs[n := arena.envs[n] + traffic];
        assert Kwargs(n, delayed, map[]) == Kwargs(n, traffic, delayed);
        res := InvokeOnce(n, Kwargs(n, delayed, map[]), op);
      } else {
        res := InvokeRow(n, traffic, delayed, op);
      }
    }

    /** A dict branch of `_follow`: one invocation, recorded under the
        node's key, and the node joins the called nodes. */
    method InvokeDict(n: nat, traffic: map<string, Value>, delayed: map<string, Value>, op: Op)
      requires Valid() && n in nodeList && arena.Ready(n) && n !in calledNodes
      modifies this, arena
      ensures Valid() && Kept() && Grew()
      ensures traversed == old(traversed) && calledNodes == old(calledNodes) + [n]
      ensures arena.delayed == old(arena.delayed) && arena.propagate == old(arena.propagate)
      ensures arena.envs == old(arena.envs)[n := old(arena.envs[n]) + traffic]
      ensures arena.completed == Marked(old(arena.completed), arena.outs[n], n, 1)
      ensures callReturns == AssocSet(old(callReturns), old(Key(n)),
        op(n, Args(old(arena.envs[me]), old(arena.envs[n]) + traffic, traffic, delayed, old(arena.propagate[me]), old(arena.propagate[n]))))
    {
      ghost var c0 := arena.completed;
      BarrierExtend(calledNodes, arena.ins, arena.completed, n);
      var res := DictCall(n, traffic, delayed, op);
      ReadyAfterGrowth(arena.ins, c0, arena.completed, calledNodes + [n]);
      NoDupAppend(calledNodes, n);
      callReturns := AssocSet(callReturns, Key(n), res);
      calledNodes := calledNodes + [n];
    }

    /** The two row branches of `_follow`; the node counts as called once
        every row has been invoked. */
    method InvokeList(n: nat, rows: seq<Value>, extra: map<string, Value>, op: Op) returns (r: Outcome)
      requires Valid() && n in nodeList && arena.Ready(n) && n !in calledNodes
      modifies this, arena
      ensures Valid() && Kept() && Grew()
      ensures traversed == old(traversed)
      ensures arena.delayed == old(arena.delayed) && arena.propagate == old(arena.propagate)
      ensures r.Pass? <==> forall i :: 0 <= i < |rows| ==> rows[i].Dict?
      ensures r.Pass? ==> calledNodes == old(calledNodes) + [n]
      ensures r.Fail? ==> r.error == AttributeError && calledNodes == old(calledNodes)
    {
      var results;
      results, r := InvokeRows(n, rows, extra, op);
      if r.Pass? {
        calledNodes := calledNodes + [n];
      }
    }

    /** The invocation branch of `_follow` for a ready node not yet called,
        by the shapes of the traffic and of the delayed traffic. Other
        shapes invoke nothing. */
    method InvokeReady(n: nat, traffic: Value, op: Op) returns (r: Outcome)
      requires Valid() && n in nodeList && arena.Ready(n) && n !in calledNodes
      modifies this, arena
      ensures Valid() && Kept() && Grew()
      ensures traversed == old(traversed) && arena.propagate == old(arena.propagate)
      ensures arena.delayed == old(arena.delayed)
      ensures calledNodes == old(calledNodes) || calledNodes == old(calledNodes) + [n]
      ensures calledNodes == old(calledNodes) + [n] <==> r.Pass? && Invocable(traffic, old(arena.delayed[n]))
      ensures !Invocable(traffic, old(arena.delayed[n])) ==>
        r.Pass? && callReturns == old(callReturns) && arena.completed == old(arena.completed) && arena.envs == old(arena.envs)
      ensures traffic.Dict? && old(arena.delayed[n]).Dict? ==> r.Pass?
      ensures traffic.List? && old(arena.delayed[n]).Dict? ==>
        (r.Pass? <==> forall i :: 0 <= i < |traffic.items| ==> traffic.items[i].Dict?)
      ensures traffic.Dict? && old(arena.delayed[n]).List? ==>
        (r.Pass? <==> forall i :: 0 <= i < |old(arena.delayed[n]).items| ==> old(arena.delayed[n]).items[i].Dict?)
    {
      var delayed := arena.delayed[n];
      if traffic.Dict? && delayed.Dict? {
        InvokeDict(n, traffic.d, delayed.d, op);
        return Pass;
      } else if traffic.List? && delayed.Dict? {
        r := InvokeList(n, traffic.items, delayed.d, op);
      } else if traffic.Dict? && delayed.List? {
        r := InvokeList(n, delayed.items, traffic.d, op);
      } else {
        return Pass;
      }
    }

    /** The parking branch of `_follow`, for a node that is not invoked. */
    method ParkAt(n: nat, traffic: Value) returns (r: Outcome)
      requires Valid() && n in nodeList
      modifies arena
      ensures Valid() && Kept() && Grew()
      ensures arena.completed == old(arena.completed) && arena.envs == old(arena.envs)
      ensures arena.propagate == old(arena.propagate)
      ensures r.Pass? <==> old(Park(arena.delayed[n], traffic)).Ok?
      ensures r.Pass? ==> arena.delayed == old(arena.delayed)[n := old(Park(arena.delayed[n], traffic)).value]
      ensures r.Fail? ==> r == Fail(old(Park(arena.delayed[n], traffic)).error) && arena.delayed == old(arena.delayed)
    {
      var parked := Park(arena.delayed[n], traffic);
      if parked.Err? {
        return Fail(parked.error);
      }
      arena.delayed := arena.delayed[n := parked.value];
      return Pass;
    }

    /** The first half of `_follow(n, traffic)` for a member: invoke it if
        it is ready and not yet called, otherwise park the traffic. Answers
        whether the node counts as called for forwarding: it was called
        before in this traversal, or all its predecessors have completed. */
    method Visit(n: nat, traffic: Value, op: Op) returns (called: bool, r: Outcome)
      requires Valid() && n in nodeList
      modifies this, arena
      ensures Valid() && Kept() && Grew()
      ensures traversed == old(traversed) && arena.propagate == old(arena.propagate)
      ensures called == (old(n in calledNodes) || old(arena.Ready(n)))
      ensures calledNodes == old(calledNodes) || calledNodes == old(calledNodes) + [n]
      ensures calledNodes == old(calledNodes) + [n] <==>
        old(arena.Ready(n)) && n !in old(calledNodes) && r.Pass? && Invocable(traffic, old(arena.delayed[n]))
      ensures old(arena.Ready(n)) && n !in old(calledNodes) ==> arena.delayed == old(arena.delayed)
      ensures !(old(arena.Ready(n)) && n !in old(calledNodes)) ==>
        && calledNodes == old(calledNodes) && callReturns == old(callReturns)
        && arena.completed == old(arena.completed) && arena.envs == old(arena.envs)
        && (r.Pass? <==> old(Park(arena.delayed[n], traffic)).Ok?)
        && (r.Pass? ==> arena.delayed == old(arena.delayed)[n := old(Park(arena.delayed[n], traffic)).value])
        && (r.Fail? ==> arena.delayed == old(arena.delayed))
    {
      called := n in calledNodes;
      if arena.Ready(n) && n !in calledNodes {
        r := InvokeReady(n, traffic, op);
        return true, r;
      }
      r := ParkAt(n, traffic);
    }

    /** The traffic `_follow` sends along the edge `n -> next`: the recorded
        link traffic (an empty dict if none), where None stands for the
        result recorded for `n`, a KeyError if there is none. */
    function EdgeTraffic(n: nat, next: nat): (r: Result<Value>)
      requires arena.Valid() && arena.IsNode(n) && arena.IsNode(next)
      reads this, arena
      ensures LinkKey(arena.names[next], next) !in arena.linkTraffic[n] ==> r == Ok(Dict(map[]))
      ensures LinkKey(arena.names[next], next) in arena.linkTraffic[n] && arena.linkTraffic[n][LinkKey(arena.names[next], next)] != Nil ==>
        r == Ok(arena.linkTraffic[n][LinkKey(arena.names[next], next)])
      ensures LinkKey(arena.names[next], next) in arena.linkTraffic[n] && arena.linkTraffic[n][LinkKey(arena.names[next], next)] == Nil ==>
        (r.Ok? <==> AssocGet(callReturns, Key(n)).Some?) && (r.Ok? ==> r.value == AssocGet(callReturns, Key(n)).value)
      ensures r.Err? ==> r.error == KeyError
    {
      var lk := LinkKey(arena.names[next], next);
      var t := if lk in arena.linkTraffic[n] then arena.linkTraffic[n][lk] else Dict(map[]);
      if t != Nil then Ok(t)
      else
        match AssocGet(callReturns, Key(n))
        case None => Err(KeyError)
        case Some(v) => Ok(v)
    }

    /** The edge `n -> next` as `_traversed` records it. */
    function EdgeKey(n: nat, next: nat): Edge
      requires arena.Valid() && arena.IsNode(n) && arena.IsNode(next)
      reads arena
    {
      (LinkKey(arena.names[n], n), LinkKey(arena.names[next], next))
    }

    /** `_follow(n, traffic)` with `fuel` Python frames left. */
    method Follow(fuel: nat, n: nat, traffic: Value, op: Op) returns (r: Outcome)
      requires Valid() && arena.IsNode(n)
      modifies this, arena
      ensures Valid() && Kept() && Grew()
      ensures fuel == 0 ==> r == Fail(RecursionError)
      ensures (fuel == 0 || n !in nodeList) ==>
        && calledNodes == old(calledNodes) && traversed == old(traversed) && callReturns == old(callReturns)
        && arena.completed == old(arena.completed) && arena.envs == old(arena.envs)
        && arena.delayed == old(arena.delayed) && arena.propagate == old(arena.propagate)
      ensures fuel > 0 && n !in nodeList ==> r == Pass
      decreases fuel, 1
    {
      if fuel == 0 {
        return Fail(RecursionError);
      }
      if n !in nodeList {
        return Pass;
      }
      var called, out := Visit(n, traffic, op);
      if out.Fail? {
        return out;
      }
      var succ := arena.outs[n];
      var i := 0;
      while i < |succ|
        invariant Valid() && Kept() && Grew()
        invariant 0 <= i <= |succ| && succ == arena.outs[n]
      {
        assert succ[i] in arena.outs[n];
        var rr := Forward(fuel, n, succ[i], called, op);
        if rr.Fail? {
          return rr;
        }
        i := i + 1;
      }
      return Pass;
    }

    /** One step of the forwarding loop of `_follow` along `n -> next`: the
        propagation dict of `n` is merged into that of `next`, and the edge
        traffic is followed if `n` counts as called and the edge was not
        traversed yet (recording it), or if `n` does not count as called. */
    method Forward(fuel: nat, n: nat, next: nat, called: bool, op: Op) returns (r: Outcome)
      requires Valid() && fuel > 0 && arena.IsNode(n) && next in arena.outs[n]
      modifies this, arena
      ensures Valid() && Kept() && Grew()
      ensures old(EdgeTraffic(n, next)).Err? ==> r == Fail(KeyError)
      ensures called && EdgeKey(n, next) in old(traversed) ==> r == Pass || r == Fail(KeyError)
      ensures (old(EdgeTraffic(n, next)).Err? || (called && EdgeKey(n, next) in old(traversed))
               || (fuel == 1 || next !in nodeList)) ==>
        && arena.propagate == old(arena.propagate)[next := old(arena.propagate[next]) + old(arena.propagate[n])]
        && calledNodes == old(calledNodes) && callReturns == old(callReturns)
        && arena.completed == old(arena.completed) && arena.envs == old(arena.envs) && arena.delayed == old(arena.delayed)
      ensures ((old(EdgeTraffic(n, next)).Err? || (called && EdgeKey(n, next) in old(traversed)) || !called) &&
               (old(EdgeTraffic(n, next)).Err? || fuel == 1 || next !in nodeList)) ==> traversed == old(traversed)
      ensures old(EdgeTraffic(n, next)).Ok? && EdgeKey(n, next) !in old(traversed) && called ==> EdgeKey(n, next) in traversed
      ensures old(EdgeTraffic(n, next)).Ok? && EdgeKey(n, next) !in old(traversed) && called && (fuel == 1 || next !in nodeList) ==>
        traversed == old(traversed) + [EdgeKey(n, next)]
      ensures old(EdgeTraffic(n, next)).Ok? && (!called || EdgeKey(n, next) !in old(traversed)) ==>
        (fuel == 1 ==> r == Fail(RecursionError)) && (fuel > 1 && next !in nodeList ==> r == Pass)
      decreases fuel, 0
    {
      arena.propagate := arena.propagate[next := arena.propagate[next] + arena.propagate[n]];
      var et := EdgeTraffic(n, next);
      if et.Err? {
        return Fail(et.error);
      }
      var edge := EdgeKey(n, next);
      if edge !in traversed && called {
        traversed := traversed + [edge];
        r := Follow(fuel - 1, next, et.value, op);
        assert edge in traversed by {
          PrefixIn(old(traversed) + [edge], traversed, edge);
        }
      } else if !called {
        r := Follow(fuel - 1, next, et.value, op);
      } else {
        r := Pass;
      }
    }

    /** `traverse()`: follows every origin with empty traffic. */
    method Traverse(fuel: nat, op: Op) returns (r: Outcome)
      requires Valid()
      modifies this, arena
      ensures Valid() && Kept() && Grew()
    {
      var i := 0;
      while i < |origins|
        invariant 0 <= i <= |origins|
        invariant Valid() && Kept() && Grew()
      {
        assert origins[i] in origins;
        var rr := Follow(fuel, origins[i], Dict(map[]), op);
        if rr.Fail? {
          return rr;
        }
        i := i + 1;
      }
      return Pass;
    }

    /** `graph(**kwargs)`: merges `kwargs` into the graph's environment,
        clears the results, traverses, clears the traversal lists, marks
        the graph completed at its own successors, and returns the results,
        or None when nothing was recorded. */
    method Call(kwargs: map<string, Value>, fuel: nat, op: Op) returns (r: Result<Option<seq<(ResultKey, Value)>>>)
      requires Valid()
      modifies this, arena
      ensures Valid()
      ensures arena.names == old(arena.names) && arena.outs == old(arena.outs) && arena.ins == old(arena.ins)
      ensures nodeList == old(nodeList) && origins == old(origins)
      ensures arena.envs[me] == old(arena.envs[me]) + kwargs
      ensures r.Ok? ==> calledNodes == [] && traversed == []
      ensures r.Ok? ==> (r.value.None? <==> callReturns == [])
      ensures r.Ok? && r.value.Some? ==> r.value.value == callReturns
      ensures r.Err? ==> old(calledNodes) <= calledNodes
    {
      arena.envs := arena.envs[me := arena.envs[me] + kwargs];
      callReturns := [];
      var out := Traverse(fuel, op);
      if out.Fail? {
        return Err(out.error);
      }
      traversed := [];
      arena.Call(me);
      calledNodes := [];
      if callReturns == [] {
        return Ok(None);
      }
      return Ok(Some(callReturns));
    }
  }
}
