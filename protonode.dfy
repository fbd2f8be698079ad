/** A node of a `ProtoGraph`, modelled as an entry of an arena: node `i` is
    the `i`-th entry of every per-node sequence, and a node reference is its
    index. The same arena holds the nodes of `Graph`, whose `Node` base has
    the same edge lists. */
module ProtoNodes {
  import opened Values

  /** The `(name, nodeid)` key under which `_link_traffic` is stored. */
  datatype LinkKey = LinkKey(name: string, id: nat)

  /** Every edge list mentions only nodes `0 .. n-1`, and no successor is
      listed twice. */
  ghost predicate EdgesOk(n: nat, outs: seq<seq<nat>>, ins: seq<seq<nat>>, completed: seq<seq<nat>>)
  {
    |outs| == n && |ins| == n && |completed| == n &&
    (forall a :: 0 <= a < n ==> NoDup(outs[a])) &&
    (forall a, b :: 0 <= a < n && b in outs[a] ==> 0 <= b < n) &&
    (forall a, b :: 0 <= a < n && b in ins[a] ==> 0 <= b < n) &&
    (forall a, b :: 0 <= a < n && b in completed[a] ==> 0 <= b < n)
  }

  /** A fresh node without edges keeps the edge lists well formed. */
  lemma EdgesOkGrow(n: nat, outs: seq<seq<nat>>, ins: seq<seq<nat>>, completed: seq<seq<nat>>)
    requires EdgesOk(n, outs, ins, completed)
    ensures EdgesOk(n + 1, outs + [[]], ins + [[]], completed + [[]])
  {
    var o, i, c := outs + [[]], ins + [[]], completed + [[]];
    assert forall a :: 0 <= a < n ==> o[a] == outs[a] && i[a] == ins[a] && c[a] == completed[a];
  }

  /** Some name occurs in both lists. */
  predicate Meet(a: seq<string>, b: seq<string>)
  {
    exists x :: x in a && x in b
  }

  /** Every node of `s` is one of `0 .. n-1`. */
  ghost predicate AllBelow(s: seq<nat>, n: nat) {
    forall x :: x in s ==> x < n
  }

  lemma AllBelowPrefix(s: seq<nat>, k: nat, n: nat)
    requires AllBelow(s, n) && k <= |s|
    ensures AllBelow(s[..k], n) && forall j :: 0 <= j < k ==> s[j] < n
  {
    forall x | x in s[..k]
      ensures x < n
    {
      var j :| 0 <= j < k && s[..k][j] == x;
      assert s[j] in s;
    }
    forall j | 0 <= j < k
      ensures s[j] < n
    {
      assert s[j] in s;
    }
  }

  /** Every node of `called` has all its predecessors in its completion
      list. */
  ghost predicate Barrier(called: seq<nat>, ins: seq<seq<nat>>, completed: seq<seq<nat>>) {
    forall n :: n in called ==> n < |ins| && n < |completed| && forall p :: p in ins[n] ==> p in completed[n]
  }

  /** A node whose predecessors have all completed may join `called`. */
  lemma BarrierExtend(called: seq<nat>, ins: seq<seq<nat>>, completed: seq<seq<nat>>, n: nat)
    requires Barrier(called, ins, completed)
    requires n < |ins| && n < |completed| && forall p :: p in ins[n] ==> p in completed[n]
    ensures Barrier(called + [n], ins, completed)
  {
  }

  /** Completion lists only grow, so a node whose predecessors had all
      completed still has. */
  lemma ReadyAfterGrowth(ins: seq<seq<nat>>, c0: seq<seq<nat>>, c1: seq<seq<nat>>, called: seq<nat>)
    requires |c0| == |c1| == |ins|
    requires forall x :: 0 <= x < |c0| ==> c0[x] <= c1[x]
    requires Barrier(called, ins, c0)
    ensures Barrier(called, ins, c1)
  {
    forall n, p | n in called && p in ins[n]
      ensures p in c1[n]
    {
      PrefixIn(c0[n], c1[n], p);
    }
  }

  class Arena {
    var names: seq<string>
    /** `_out`: successors in link order. */
    var outs: seq<seq<nat>>
    /** `_in`: predecessors in link order. */
    var ins: seq<seq<nat>>
    /** `_completed`: the predecessors that have announced completion. */
    var completed: seq<seq<nat>>
    /** `_link_traffic`; `Nil` means "forward the node's result". */
    var linkTraffic: seq<map<LinkKey, Value>>
    /** `environment`. */
    var envs: seq<map<string, Value>>
    /** `_delayed_traffic`: a `Dict` or a `List` of dicts. */
    var delayed: seq<Value>
    /** `_propagate`: a per-node map that starts empty. */
    var propagate: seq<map<string, Value>>
    /** `attributes`, filled from the constructor's keyword arguments. */
    var attributes: seq<map<string, Value>>

    ghost predicate Valid()
      reads this
    {
      var n := |names|;
      |outs| == n && |ins| == n && |completed| == n && |linkTraffic| == n &&
      |envs| == n && |delayed| == n && |propagate| == n && |attributes| == n &&
      EdgesOk(n, outs, ins, completed)
    }

    /** The names of the nodes of `nl`. */
    function NamesOf(nl: seq<nat>): (r: seq<string>)
      requires Valid() && AllBelow(nl, |names|)
      reads this
      ensures |r| == |nl| && forall j :: 0 <= j < |nl| ==> nl[j] in nl && r[j] == names[nl[j]]
    {
      seq(|nl|, j requires 0 <= j < |nl| reads this requires Valid() && AllBelow(nl, |names|) => assert nl[j] in nl; names[nl[j]])
    }

    ghost predicate IsNode(a: nat)
      reads this
    {
      a < |names|
    }

    constructor ()
      ensures Valid() && names == []
    {
      names, outs, ins, completed := [], [], [], [];
      linkTraffic, envs, delayed, propagate, attributes := [], [], [], [], [];
    }

    /** `ProtoNode(name, **kwargs)`: a fresh node with empty edge lists. */
    method NewNode(name: string, kwargs: map<string, Value>) returns (id: nat)
      requires Valid()
      modifies this
      ensures Valid() && id == old(|names|)
      ensures names == old(names) + [name] && attributes == old(attributes) + [kwargs]
      ensures outs == old(outs) + [[]] && ins == old(ins) + [[]] && completed == old(completed) + [[]]
      ensures linkTraffic == old(linkTraffic) + [map[]] && envs == old(envs) + [map[]]
      ensures delayed == old(delayed) + [Dict(map[])] && propagate == old(propagate) + [map[]]
    {
      id := |names|;
      EdgesOkGrow(|names|, outs, ins, completed);
      names, outs, ins, completed := names + [name], outs + [[]], ins + [[]], completed + [[]];
      linkTraffic, envs, delayed := linkTraffic + [map[]], envs + [map[]], delayed + [Dict(map[])];
      propagate, attributes := propagate + [map[]], attributes + [kwargs];
    }

    /** The link-traffic table of `a` after linking it to `b`: non-empty
        traffic is recorded under `b`'s key, and `resultAsTraffic` overrides
        it with `Nil`. */
    function LinkedTraffic(a: nat, b: nat, traffic: map<string, Value>, resultAsTraffic: bool): (t: map<LinkKey, Value>)
      requires Valid() && IsNode(a) && IsNode(b)
      reads this
      ensures resultAsTraffic ==> t == linkTraffic[a][LinkKey(names[b], b) := Nil]
      ensures !resultAsTraffic && traffic != map[] ==> t == linkTraffic[a][LinkKey(names[b], b) := Dict(traffic)]
      ensures !resultAsTraffic && traffic == map[] ==> t == linkTraffic[a]
    {
      var key := LinkKey(names[b], b);
      var t1 := if traffic != map[] then linkTraffic[a][key := Dict(traffic)] else linkTraffic[a];
      if resultAsTraffic then t1[key := Nil] else t1
    }

    /** `a.link_to(b, traffic, block, result_as_traffic)`. A successor that is
        already linked leaves the node untouched. */
    method LinkTo(a: nat, b: nat, traffic: map<string, Value>, block: bool, resultAsTraffic: bool)
      requires Valid() && IsNode(a) && IsNode(b)
      modifies this
      ensures Valid()
      ensures names == old(names) && completed == old(completed) && delayed == old(delayed)
      ensures propagate == old(propagate) && attributes == old(attributes)
      ensures b in old(outs[a]) ==> outs == old(outs) && ins == old(ins) && linkTraffic == old(linkTraffic) && envs == old(envs)
      ensures b !in old(outs[a]) ==>
        && outs == old(outs)[a := old(outs[a]) + [b]]
        && ins == old(ins)[b := old(ins[b]) + [a]]
        && linkTraffic == old(linkTraffic)[a := old(LinkedTraffic(a, b, traffic, resultAsTraffic))]
        && envs == (if block then old(envs) else old(envs)[b := old(envs[b]) + traffic])
    {
      if b !in outs[a] {
        var lt := LinkedTraffic(a, b, traffic, resultAsTraffic);
        outs := outs[a := outs[a] + [b]];
        ins := ins[b := ins[b] + [a]];
        linkTraffic := linkTraffic[a := lt];
        if !block {
          envs := envs[b := envs[b] + traffic];
        }
      }
    }

    /** `a >> other`: links only when the right operand is a node. */
    method RShift(a: nat, other: Option<nat>)
      requires Valid() && IsNode(a) && (other.Some? ==> IsNode(other.value))
      modifies this
      ensures Valid()
      ensures other.None? ==> outs == old(outs) && ins == old(ins) && linkTraffic == old(linkTraffic) && envs == old(envs)
      ensures other.Some? && other.value !in old(outs[a]) ==>
        outs == old(outs)[a := old(outs[a]) + [other.value]] && ins == old(ins)[other.value := old(ins[other.value]) + [a]]
      ensures other.Some? && other.value in old(outs[a]) ==> outs == old(outs) && ins == old(ins)
      ensures names == old(names) && completed == old(completed) && delayed == old(delayed)
      ensures propagate == old(propagate) && attributes == old(attributes)
    {
      if other.Some? {
        LinkTo(a, other.value, map[], true, false);
      }
    }

    /** `a.unlink_from(b)`: removes `b` from `a`'s successors if present; the
        predecessor list of `b` is left as it was. */
    method UnlinkFrom(a: nat, b: nat)
      requires Valid() && IsNode(a)
      modifies this
      ensures Valid()
      ensures b in old(outs[a]) ==> outs == old(outs)[a := RemoveFirst(old(outs[a]), b)]
      ensures b !in old(outs[a]) ==> outs == old(outs)
      ensures b !in outs[a] && forall x :: x in outs[a] <==> x in old(outs[a]) && x != b
      ensures names == old(names) && ins == old(ins) && completed == old(completed)
      ensures linkTraffic == old(linkTraffic) && envs == old(envs) && delayed == old(delayed)
      ensures propagate == old(propagate) && attributes == old(attributes)
    {
      if b in outs[a] {
        var s := outs[a];
        var k := IndexOf(s, b);
        RemoveFirstNoDup(s, b);
        outs := outs[a := RemoveFirst(s, b)];
      }
    }

    /** `a()`: appends `a` to the completion list of each of its successors. */
    method Call(a: nat)
      requires Valid() && IsNode(a)
      modifies this
      ensures Valid()
      ensures |completed| == old(|completed|)
      ensures forall x :: 0 <= x < |completed| ==>
        completed[x] == old(completed[x]) + (if x in old(outs[a]) then [a] else [])
      ensures names == old(names) && outs == old(outs) && ins == old(ins)
      ensures linkTraffic == old(linkTraffic) && envs == old(envs) && delayed == old(delayed)
      ensures propagate == old(propagate) && attributes == old(attributes)
    {
      var succ := outs[a];
      var i := 0;
      while i < |succ|
        invariant 0 <= i <= |succ| && Valid() && names == old(names) && succ == outs[a]
        invariant |completed| == |old(completed)|
        invariant forall x :: 0 <= x < |completed| ==>
          completed[x] == old(completed[x]) + (if x in succ[..i] then [a] else [])
        invariant names == old(names) && outs == old(outs) && ins == old(ins)
        invariant linkTraffic == old(linkTraffic) && envs == old(envs) && delayed == old(delayed)
        invariant propagate == old(propagate) && attributes == old(attributes)
      {
        var node := succ[i];
        assert node in outs[a];
        assert node !in succ[..i] by {
          assert NoDup(succ);
        }
        assert forall x :: x in succ[..i + 1] <==> x in succ[..i] || x == node by {
          assert succ[..i + 1] == succ[..i] + [node];
        }
        completed := completed[node := completed[node] + [a]];
        i := i + 1;
      }
      assert succ[..i] == succ;
    }

    /** Only the edge lists may have changed. */
    twostate predicate EdgesOnly()
      reads this
    {
      names == old(names) && completed == old(completed) && linkTraffic == old(linkTraffic) &&
      envs == old(envs) && delayed == old(delayed) && propagate == old(propagate) &&
      attributes == old(attributes)
    }

    /** All predecessors of `n` have announced completion. */
    predicate Ready(n: nat)
      requires Valid() && IsNode(n)
      reads this
    {
      forall p :: p in ins[n] ==> p in completed[n]
    }

    /** `a._in.remove(x)`: ValueError when `x` is not a predecessor. */
    method RemoveIn(a: nat, x: nat) returns (r: Outcome)
      requires Valid() && IsNode(a)
      modifies this
      ensures Valid()
      ensures r.Fail? <==> x !in old(ins[a])
      ensures r.Fail? ==> r.error == ValueError && ins == old(ins)
      ensures r.Pass? ==> ins == old(ins)[a := RemoveFirst(old(ins[a]), x)]
      ensures names == old(names) && outs == old(outs) && completed == old(completed)
      ensures linkTraffic == old(linkTraffic) && envs == old(envs) && delayed == old(delayed)
      ensures propagate == old(propagate) && attributes == old(attributes)
    {
      if x !in ins[a] {
        return Fail(ValueError);
      }
      RemoveFirstSub(ins[a], x);
      ins := ins[a := RemoveFirst(ins[a], x)];
      return Pass;
    }

    /** `a._completed = []`. */
    method ClearCompleted(a: nat)
      requires Valid() && IsNode(a)
      modifies this
      ensures Valid() && completed == old(completed)[a := []]
      ensures names == old(names) && outs == old(outs) && ins == old(ins)
      ensures linkTraffic == old(linkTraffic) && envs == old(envs) && delayed == old(delayed)
      ensures propagate == old(propagate) && attributes == old(attributes)
    {
      completed := completed[a := []];
    }

    /** `a.change_name(n)`. */
    method ChangeName(a: nat, newName: string)
      requires Valid() && IsNode(a)
      modifies this
      ensures Valid() && names == old(names)[a := newName]
      ensures outs == old(outs) && ins == old(ins) && completed == old(completed)
      ensures linkTraffic == old(linkTraffic) && envs == old(envs) && delayed == old(delayed)
      ensures propagate == old(propagate) && attributes == old(attributes)
    {
      names := names[a := newName];
    }

    // ------------------------------------------------------- structural ==

    /** `ProtoNode.__eq__(a, b)` with `fuel` Python frames left; running out
        is Python's RecursionError. Equal iff same name, same number of
        successors and every successor of `a` is `in` the successors of `b`. */
    function NodeEq(fuel: nat, a: nat, b: nat): (r: Result<bool>)
      requires Valid() && IsNode(a) && IsNode(b)
      reads this
      ensures fuel == 0 ==> r == Err(RecursionError)
      ensures r.Err? ==> r.error == RecursionError
      ensures fuel > 0 && (names[a] != names[b] || |outs[a]| != |outs[b]|) ==> r == Ok(false)
      ensures r == Ok(true) ==> names[a] == names[b] && |outs[a]| == |outs[b]|
      decreases fuel, 0, 0
    {
      if fuel == 0 then Err(RecursionError)
      else if names[a] == names[b] && |outs[a]| == |outs[b]| then
        AllContained(fuel - 1, outs[a], outs[b])
      else Ok(false)
    }

    /** `all(n in l for n in xs)`, stopping at the first miss. */
    function AllContained(fuel: nat, xs: seq<nat>, l: seq<nat>): (r: Result<bool>)
      requires Valid() && (forall x :: x in xs ==> IsNode(x)) && (forall y :: y in l ==> IsNode(y))
      reads this
      ensures r == Ok(true) ==> forall x :: x in xs ==> Contained(fuel, x, l) == Ok(true)
      ensures r.Err? ==> r.error == RecursionError
      decreases fuel, 2, |xs|
    {
      if xs == [] then Ok(true)
      else
        match Contained(fuel, xs[0], l)
        case Err(e) => Err(e)
        case Ok(found) =>
          if !found then Ok(false)
          else
            var rest := AllContained(fuel, xs[1..], l);
            assert forall x :: x in xs ==> x == xs[0] || x in xs[1..];
            rest
    }

    /** Python's list `x in l`: identity first, then `==` element by element. */
    function Contained(fuel: nat, x: nat, l: seq<nat>): (r: Result<bool>)
      requires Valid() && IsNode(x) && (forall y :: y in l ==> IsNode(y))
      reads this
      ensures x in l && r.Ok? ==> r == Ok(true)
      ensures r == Ok(false) ==> x !in l
      ensures r.Err? ==> r.error == RecursionError
      decreases fuel, 1, |l|
    {
      if l == [] then Ok(false)
      else if l[0] == x then Ok(true)
      else
        match NodeEq(fuel, l[0], x)
        case Err(e) => Err(e)
        case Ok(eq) => if eq then Ok(true) else Contained(fuel, x, l[1..])
    }

    ghost predicate UniqueNames()
      reads this
    {
      forall a, b :: 0 <= a < b < |names| ==> names[a] != names[b]
    }

    /** With unique names, `in` over a list of nodes is identity membership. */
    lemma {:induction false} ContainedUnique(fuel: nat, x: nat, l: seq<nat>)
      requires Valid() && UniqueNames() && fuel >= 1
      requires IsNode(x) && forall y :: y in l ==> IsNode(y)
      ensures Contained(fuel, x, l) == Ok(x in l)
      decreases |l|
    {
      if l != [] && l[0] != x {
        assert l[0] in l;
        if l[0] < x { assert names[l[0]] != names[x]; } else { assert names[x] != names[l[0]]; }
        ContainedUnique(fuel, x, l[1..]);
        assert forall y :: y in l <==> y == l[0] || y in l[1..];
      }
    }

    lemma {:induction false} AllContainedUnique(fuel: nat, xs: seq<nat>, l: seq<nat>)
      requires Valid() && UniqueNames() && fuel >= 1
      requires (forall x :: x in xs ==> IsNode(x)) && forall y :: y in l ==> IsNode(y)
      ensures AllContained(fuel, xs, l) == Ok(forall x :: x in xs ==> x in l)
      decreases |xs|
    {
      if xs != [] {
        ContainedUnique(fuel, xs[0], l);
        AllContainedUnique(fuel, xs[1..], l);
        assert forall x :: x in xs <==> x == xs[0] || x in xs[1..];
      }
    }

    /** With unique names and two frames to spare, the structural `==` of
        nodes is identity; this is why the operations compare node indices. */
    lemma NodeEqUnique(fuel: nat, a: nat, b: nat)
      requires Valid() && UniqueNames() && fuel >= 2 && IsNode(a) && IsNode(b)
      ensures NodeEq(fuel, a, b) == Ok(a == b)
    {
      if a == b {
        AllContainedUnique(fuel - 1, outs[a], outs[a]);
      } else {
        if a < b { assert names[a] != names[b]; } else { assert names[b] != names[a]; }
      }
    }

    // ------------------------------------------------------------- reachability

    /** `x` is reached from `a` by following at most `d` edges. */
    ghost predicate Reach(a: nat, x: nat, d: nat)
      requires Valid() && IsNode(a)
      reads this
      decreases d
    {
      a == x || (d > 0 && exists c :: c in outs[a] && Reach(c, x, d - 1))
    }

    ghost predicate Reachable(a: nat, x: nat)
      requires Valid() && IsNode(a)
      reads this
    {
      exists d: nat :: Reach(a, x, d)
    }

    /** Some walk of exactly `d` edges starts at `a`. */
    ghost predicate HasWalk(a: nat, d: nat)
      requires Valid() && IsNode(a)
      reads this
      decreases d
    {
      d == 0 || exists c :: c in outs[a] && HasWalk(c, d - 1)
    }

    /** When no walk of `d` edges leaves `a`, everything reachable from `a`
        is reached within `d - 1` edges. */
    lemma {:induction false} ReachBounded(a: nat, x: nat, d: nat, k: nat)
      requires Valid() && IsNode(a) && !HasWalk(a, d) && Reach(a, x, k)
      ensures d >= 1 && Reach(a, x, d - 1)
      decreases k
    {
      if a != x {
        var c :| c in outs[a] && Reach(c, x, k - 1);
        assert !HasWalk(c, d - 1);
        ReachBounded(c, x, d - 1, k - 1);
      }
    }

    /** `a._is_child_checker(pc, checks)` with `fuel` frames left. The
        accumulator is shared by all recursive calls, so each child's answer
        is the accumulator itself and extending by it doubles the list. */
    method IsChildChecker(fuel: nat, a: nat, pc: nat, checks: seq<bool>) returns (r: Result<seq<bool>>)
      requires Valid() && IsNode(a) && IsNode(pc)
      requires forall k :: 0 <= k < |checks| ==> checks[k]
      ensures fuel == 0 ==> r.Err?
      ensures r.Ok? <==> !HasWalk(a, fuel)
      ensures r.Err? ==> r.error == RecursionError
      ensures r.Ok? ==> fuel >= 1
      ensures r.Ok? ==> forall k :: 0 <= k < |r.value| ==> r.value[k]
      ensures r.Ok? ==> (true in r.value <==> checks != [] || Reach(a, pc, fuel - 1))
      decreases fuel
    {
      if fuel == 0 {
        return Err(RecursionError);
      }
      var acc := checks;
      if a == pc {
        acc := acc + [true];
      }
      assert true in checks ==> checks != [];
      assert checks != [] ==> checks[0] == true;
      var succ := outs[a];
      assert forall j :: 0 <= j < |succ| ==> succ[j] in outs[a];
      var i := 0;
      while i < |succ|
        invariant 0 <= i <= |succ|
        invariant forall j :: 0 <= j < |succ| ==> IsNode(succ[j])
        invariant i > 0 ==> fuel >= 2
        invariant forall k :: 0 <= k < |acc| ==> acc[k]
        invariant forall j :: 0 <= j < i ==> !HasWalk(succ[j], fuel - 1)
        invariant true in acc <==> checks != [] || a == pc || exists j :: 0 <= j < i && Reach(succ[j], pc, fuel - 2)
      {
        assert acc != [] ==> acc[0];
        var res := IsChildChecker(fuel - 1, succ[i], pc, acc);
        if res.Err? {
          assert succ[i] in outs[a] && HasWalk(succ[i], fuel - 1);
          return Err(res.error);
        }
        assert true in res.value + res.value <==> true in res.value;
        acc := res.value + res.value;
        i := i + 1;
      }
      if fuel >= 2 {
        assert forall c :: c in outs[a] ==> exists j :: 0 <= j < |succ| && succ[j] == c;
      }
      r := Ok(acc);
    }

    /** `a._is_child(pc)`, which is also `a < pc`: true iff `pc` is `a` or is
        reachable from it; a cycle below `a` exhausts any `fuel`. */
    method IsChild(fuel: nat, a: nat, pc: nat) returns (r: Result<bool>)
      requires Valid() && IsNode(a) && IsNode(pc)
      ensures fuel == 0 ==> r.Err?
      ensures r.Ok? <==> !HasWalk(a, fuel)
      ensures r.Err? ==> r.error == RecursionError
      ensures r.Ok? ==> (r.value <==> Reachable(a, pc))
    {
      var res := IsChildChecker(fuel, a, pc, []);
      if res.Err? {
        return Err(res.error);
      }
      r := Ok(true in res.value);
      if r.value {
        assert Reach(a, pc, fuel - 1);
      } else if Reachable(a, pc) {
        var d: nat :| Reach(a, pc, d);
        ReachBounded(a, pc, fuel, d);
      }
    }
  }

  /** Removing the first occurrence from a duplicate-free list removes the
      element entirely and keeps the list duplicate-free. */
  lemma RemoveFirstNoDup<T>(s: seq<T>, x: T)
    requires x in s && NoDup(s)
    ensures NoDup(RemoveFirst(s, x))
    ensures forall y :: y in RemoveFirst(s, x) <==> y in s && y != x
  {
    var k := IndexOf(s, x);
    var t := RemoveFirst(s, x);
    assert t == s[..k] + s[k + 1..];
    assert forall j :: 0 <= j < |t| ==> t[j] == if j < k then s[j] else s[j + 1];
    forall y | y in s && y != x
      ensures y in t
    {
      var j :| 0 <= j < |s| && s[j] == y;
      if j < k { assert t[j] == y; } else { assert t[j - 1] == y; }
    }
  }
}
