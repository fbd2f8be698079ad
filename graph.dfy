/** `Graph`: a node that holds its members between a start and an end
    sentinel, keeps the start sentinel linked to the members nobody
    precedes and every member without successors linked to the end
    sentinel, and runs its members in dependency order. The thread pool is
    replaced by a first-in first-out queue of pending visits. */
module Graphs {
  import opened Values
  import opened ProtoNodes

  /** What invoking a member returns, by node id. */
  type Job = nat -> Value

  /** `child_nodes` of `find_origins`: the successors of every member other
      than the sentinels `s` and `e`, member by member. */
  ghost function Children(nl: seq<nat>, outs: seq<seq<nat>>, s: nat, e: nat): seq<nat>
    requires AllBelow(nl, |outs|)
  {
    if nl == [] then []
    else
      var m := nl[|nl| - 1];
      AllBelowPrefix(nl, |nl| - 1, |outs|);
      AllBelowPrefix(nl, |nl|, |outs|);
      Children(nl[..|nl| - 1], outs, s, e) + (if m == s || m == e then [] else outs[m])
  }

  /** The members that are neither a sentinel nor a member of `ch`, in list
      order. */
  ghost function OriginsOf(nl: seq<nat>, ch: seq<nat>, s: nat, e: nat): seq<nat>
  {
    if nl == [] then []
    else
      var p := nl[|nl| - 1];
      OriginsOf(nl[..|nl| - 1], ch, s, e) + (if p in ch || p == s || p == e then [] else [p])
  }

  /** `p` is a member, no sentinel, and no successor of a member other than
      the sentinels. */
  ghost predicate IsOrigin(nl: seq<nat>, outs: seq<seq<nat>>, s: nat, e: nat, p: nat)
    requires AllBelow(nl, |outs|)
  {
    p in nl && p != s && p != e && forall m :: m in nl && m != s && m != e ==> p !in outs[m]
  }

  lemma {:induction false} ChildrenIn(nl: seq<nat>, outs: seq<seq<nat>>, s: nat, e: nat, x: nat)
    requires AllBelow(nl, |outs|)
    ensures x in Children(nl, outs, s, e) <==> exists m :: m in nl && m != s && m != e && x in outs[m]
  {
    if nl != [] {
      var k := |nl| - 1;
      assert forall m :: m in nl <==> m in nl[..k] || m == nl[k] by {
        assert nl == nl[..k] + [nl[k]];
      }
      ChildrenIn(nl[..k], outs, s, e, x);
    }
  }

  lemma {:induction false} OriginsIn(nl: seq<nat>, ch: seq<nat>, s: nat, e: nat, p: nat)
    ensures p in OriginsOf(nl, ch, s, e) <==> p in nl && p !in ch && p != s && p != e
  {
    if nl != [] {
      var k := |nl| - 1;
      assert forall m :: m in nl <==> m in nl[..k] || m == nl[k] by {
        assert nl == nl[..k] + [nl[k]];
      }
      OriginsIn(nl[..k], ch, s, e, p);
    }
  }

  /** For the list `[s] + nodes + [e]` of a fresh graph, the origins are the
      members no member leads to. */
  lemma FreshBelow(nodes: seq<nat>, s: nat, e: nat, n: nat)
    requires AllBelow(nodes, n) && s < n && e < n
    ensures AllBelow([s] + nodes + [e], n)
    ensures forall j :: 0 <= j < |[s] + nodes + [e]| ==> ([s] + nodes + [e])[j] < n
  {
    AllBelowPrefix(nodes, |nodes|, n);
  }

  lemma FreshOrigins(nodes: seq<nat>, outs: seq<seq<nat>>, s: nat, e: nat, p: nat)
    requires AllBelow(nodes, |outs|) && s !in nodes && e !in nodes && s < |outs| && e < |outs|
    ensures AllBelow([s] + nodes + [e], |outs|)
    ensures IsOrigin([s] + nodes + [e], outs, s, e, p) <==> p in nodes && forall m :: m in nodes ==> p !in outs[m]
  {
    var nl := [s] + nodes + [e];
    assert forall x :: x in nl <==> x == s || x == e || x in nodes;
  }

  /** The members of `nl` other than the sentinels, in list order. */
  function Inner(nl: seq<nat>, s: nat, e: nat): (r: seq<nat>)
    ensures forall x :: x in r <==> x in nl && x != s && x != e
    ensures |r| <= |nl|
  {
    if nl == [] then []
    else (if nl[0] == s || nl[0] == e then [] else [nl[0]]) + Inner(nl[1..], s, e)
  }

  /** The elements at odd positions. */
  function OddPositions<T>(s: seq<T>): seq<T>
  {
    seq(|s| / 2, k requires 0 <= k < |s| / 2 => s[2 * k + 1])
  }

  /** The first `min(2 i, |s|)` elements of `s` halved to their odd
      positions, the rest as they were. */
  ghost function Halved(s: seq<nat>, i: nat): seq<nat>
  {
    var j := if 2 * i <= |s| then 2 * i else |s|;
    OddPositions(s[..j]) + s[j..]
  }

  lemma OddPositionsGrow(s: seq<nat>, i: nat)
    requires 2 * i + 2 <= |s|
    ensures OddPositions(s[..2 * i + 2]) == OddPositions(s[..2 * i]) + [s[2 * i + 1]]
  {
  }

  lemma OddPositionsFresh(s: seq<nat>, i: nat)
    requires NoDup(s) && 2 * i < |s|
    ensures s[2 * i] !in OddPositions(s[..2 * i])
  {
    var a := OddPositions(s[..2 * i]);
    forall k | 0 <= k < |a|
      ensures a[k] != s[2 * i]
    {
      assert a[k] == s[2 * k + 1];
    }
  }

  lemma HalvedSplit(s: seq<nat>, i: nat)
    requires 2 * i < |s|
    ensures Halved(s, i) == OddPositions(s[..2 * i]) + [s[2 * i]] + s[2 * i + 1..]
  {
    assert s[2 * i..] == [s[2 * i]] + s[2 * i + 1..];
  }

  lemma HalvedNext(s: seq<nat>, i: nat)
    requires 2 * i < |s|
    ensures Halved(s, i + 1) == OddPositions(s[..2 * i]) + s[2 * i + 1..]
  {
    if 2 * i + 1 < |s| {
      OddPositionsGrow(s, i);
      assert s[2 * i + 1..] == [s[2 * i + 1]] + s[2 * i + 2..];
    } else {
      assert s[..|s|] == s;
      assert OddPositions(s) == OddPositions(s[..2 * i]);
    }
  }

  /** Removing the element at `2 i` halves one more pair. */
  lemma HalvedStep(s: seq<nat>, i: nat)
    requires NoDup(s) && 2 * i < |s|
    ensures i < |Halved(s, i)| && Halved(s, i)[i] == s[2 * i]
    ensures RemoveFirst(Halved(s, i), s[2 * i]) == Halved(s, i + 1)
  {
    var a := OddPositions(s[..2 * i]);
    var x, b := s[2 * i], s[2 * i + 1..];
    var t := a + [x] + b;
    HalvedSplit(s, i);
    HalvedNext(s, i);
    OddPositionsFresh(s, i);
    IndexOfPast(a, x, b);
    assert t[..|a|] == a && t[|a| + 1..] == b;
  }

  /** Once `2 i` reaches the length, everything is halved. */
  lemma HalvedDone(s: seq<nat>, i: nat)
    requires 2 * i >= |s|
    ensures Halved(s, i) == OddPositions(s) && |Halved(s, i)| <= i
  {
    assert s[..|s|] == s;
  }

  lemma HalvedLength(s: seq<nat>, i: nat)
    ensures 2 * i <= |s| ==> |Halved(s, i)| == |s| - i
    ensures 2 * i > |s| ==> |Halved(s, i)| <= i
  {
  }

  /** `s` with `b` unlinked, when `b` is in it. */
  function Unlinked(s: seq<nat>, b: nat): seq<nat>
  {
    if b in s then RemoveFirst(s, b) else s
  }

  /** Each node of `p` is listed once and still has `e` among its
      successors in `outs`. */
  ghost predicate EndEdges(p: seq<nat>, outs: seq<seq<nat>>, e: nat)
  {
    NoDup(p) && forall x :: x in p ==> x < |outs| && e in outs[x]
  }

  /** A new node that still leads to `e` extends the walked prefix. */
  lemma EndEdgesStep(p: seq<nat>, n: nat, outs: seq<seq<nat>>, e: nat)
    requires EndEdges(p, outs, e) && n !in p && n < |outs| && e in outs[n]
    ensures EndEdges(p + [n], outs, e)
  {
    NoDupAppend(p, n);
  }

  /** The end loop fails at `p[i]` either because that node was already
      walked or because it never led to `e`; either way the whole list
      does not meet `EndEdges`. */
  lemma EndEdgesFail(p: seq<nat>, i: nat, outs: seq<seq<nat>>, e: nat)
    requires i < |p| && EndEdges(p[..i], outs, e)
    requires p[i] in p[..i] || (p[i] < |outs| && e !in outs[p[i]])
    ensures !EndEdges(p, outs, e)
  {
    if p[i] in p[..i] {
      var j :| 0 <= j < i && p[..i][j] == p[i];
      assert p[j] == p[i];
    } else {
      assert p[i] in p;
    }
  }

  /** The predecessors the end loop of `_top_and_tail` walks: end's `_in`
      after the start loop, which drops start from it when end is one of
      start's successors. */
  function TailPreds(startOuts: seq<nat>, endIns: seq<nat>, start: nat, end: nat): (r: seq<nat>)
    ensures forall x :: x in r ==> x in endIns
    ensures end !in startOuts ==> r == endIns
  {
    if end in startOuts then Unlinked(endIns, start) else endIns
  }

  /** The successor list `s` after `i` rounds of a `for` loop over it whose
      body unlinks the element visited: Python's list iterator visits
      position `i - 1` in round `i` and stops once that is past the end. */
  ghost function AfterRounds(s: seq<nat>, i: nat): seq<nat>
    decreases i
  {
    if i == 0 then s else Round(AfterRounds(s, i - 1), i - 1)
  }

  /** Round `k + 1` of that loop on the list `t`. */
  ghost function Round(t: seq<nat>, k: nat): seq<nat>
  {
    if k < |t| then Unlinked(t, t[k]) else t
  }

  /** On a list without duplicates, `i` rounds halve the first `2 i`
      elements to their odd positions. */
  lemma {:induction false} AfterRoundsHalve(s: seq<nat>, i: nat)
    requires NoDup(s)
    ensures AfterRounds(s, i) == Halved(s, i)
    decreases i
  {
    if i == 0 {
      HalvedZero(s);
    } else {
      AfterRoundsHalve(s, i - 1);
      HalvedRound(s, i - 1, AfterRounds(s, i - 1));
    }
  }

  lemma HalvedZero(s: seq<nat>)
    ensures Halved(s, 0) == s
  {
    assert OddPositions(s[..0]) == [] && s[0..] == s;
  }

  /** One round of the loop on a list halved `i` times halves it once
      more. */
  lemma HalvedRound(s: seq<nat>, i: nat, t: seq<nat>)
    requires NoDup(s) && t == Halved(s, i)
    ensures Round(t, i) == Halved(s, i + 1)
  {
    HalvedLength(s, i);
    if i < |t| {
      assert 2 * i < |s|;
      var x := s[2 * i];
      HalvedStep(s, i);
      assert t[i] == x && x in t;
      assert Unlinked(t, x) == RemoveFirst(t, x);
    } else {
      HalvedDone(s, i);
      HalvedDone(s, i + 1);
    }
  }

  /** Unlinking removes exactly the node unlinked. */
  lemma UnlinkedIn(s: seq<nat>, b: nat)
    requires NoDup(s)
    ensures NoDup(Unlinked(s, b)) && b !in Unlinked(s, b)
    ensures forall y :: y in Unlinked(s, b) <==> y in s && y != b
    ensures Unlinked(s, b) == [] <==> forall y :: y in s ==> y == b
  {
    if b in s {
      RemoveFirstNoDup(s, b);
    }
    var u := Unlinked(s, b);
    if u != [] {
      assert u[0] in u;
    }
    if s != [] && s[0] != b {
      assert s[0] in u;
    }
  }

  /** Unlinking twice is unlinking once. */
  lemma UnlinkedTwice(s: seq<nat>, b: nat)
    requires NoDup(s)
    ensures Unlinked(Unlinked(s, b), b) == Unlinked(s, b)
  {
    if b in s {
      RemoveFirstNoDup(s, b);
    }
  }

  /** The successor lists through the phases of a relink: `o0` before,
      `o2` once start leads to the origins `os` alone, `o3` once the
      predecessors `pe` of the end sentinel are unlinked from it, `o4` once
      the members without successors lead to it. */
  lemma RelinkEdges(o0: seq<seq<nat>>, o2: seq<seq<nat>>, o3: seq<seq<nat>>, o4: seq<seq<nat>>,
                    pe: seq<nat>, nl: seq<nat>, s: nat, e: nat, os: seq<nat>)
    requires |o0| == |o2| == |o3| == |o4| && s < |o0| && e < |o0| && s != e && s in nl
    requires AllBelow(nl, |o0|) && e !in os
    requires forall x :: 0 <= x < |o2| ==> NoDup(o2[x])
    requires forall x :: 0 <= x < |o2| && x != s ==> o2[x] == o0[x]
    requires forall o :: o in o2[s] <==> o in os
    requires forall x :: 0 <= x < |o3| && x !in pe ==> o3[x] == o2[x]
    requires forall x :: 0 <= x < |o3| && x in pe ==> o3[x] == Unlinked(o2[x], e)
    requires forall x :: 0 <= x < |o4| ==> o4[x] == if x in nl && x != e && o3[x] == [] then [e] else o3[x]
    ensures forall o :: o in o4[s] <==> o in os || (os == [] && o == e)
    ensures forall x, y :: 0 <= x < |o4| && x != s && y != e ==> (y in o4[x] <==> y in o0[x])
    ensures forall x :: x in nl && x != e ==> o4[x] != []
    ensures forall x :: x in nl && x != s && x != e && (e in o0[x] ==> x in pe) ==>
      (e in o4[x] <==> forall y :: y in o0[x] ==> y == e)
  {
    forall x | 0 <= x < |o3|
      ensures forall y :: y != e ==> (y in o3[x] <==> y in o2[x])
      ensures x in pe ==> e !in o3[x] && (o3[x] == [] <==> forall y :: y in o2[x] ==> y == e)
    {
      UnlinkedIn(o2[x], e);
    }
    assert os != [] ==> os[0] in o2[s];
    assert o2[s] != [] ==> o2[s][0] in os;
    forall x | x in nl && x != s && x != e && (e in o0[x] ==> x in pe)
      ensures e in o4[x] <==> forall y :: y in o0[x] ==> y == e
    {
      assert x < |o0|;
      if x !in pe {
        if o0[x] != [] {
          assert o0[x][0] in o0[x];
        }
      }
    }
  }

  /** The unlink loop as written keeps the second successor of a start
      sentinel with two or more successors. */
  lemma StartKeepsSecond(s: seq<nat>)
    requires |s| >= 2
    ensures OddPositions(s) != [] && OddPositions(s)[0] == s[1]
  {
  }

  /** The number of recorded edges that lead into `b`: the length of
      `[p for p in traversed if p[1] == b]`. */
  function CountInto(t: seq<(nat, nat)>, b: nat): (r: nat)
    ensures r <= |t|
    ensures r == 0 <==> forall i :: 0 <= i < |t| ==> t[i].1 != b
  {
    if t == [] then 0
    else
      var u := t[..|t| - 1];
      assert forall i :: 0 <= i < |u| ==> u[i] == t[i];
      CountInto(u, b) + (if t[|t| - 1].1 == b then 1 else 0)
  }

  /** Recording one more edge adds one to the count of its target only. */
  lemma CountIntoAppend(t: seq<(nat, nat)>, e: (nat, nat), b: nat)
    ensures CountInto(t + [e], b) == CountInto(t, b) + (if e.1 == b then 1 else 0)
  {
    assert (t + [e])[..|t|] == t;
  }

  /** Counting over a longer prefix never counts fewer edges. */
  lemma {:induction false} CountIntoPrefix(t: seq<(nat, nat)>, i: nat, j: nat, b: nat)
    requires i <= j <= |t|
    ensures CountInto(t[..i], b) <= CountInto(t[..j], b)
    decreases j - i
  {
    if i < j {
      CountIntoPrefix(t, i, j - 1, b);
      assert t[..j][..j - 1] == t[..j - 1];
    }
  }

  /** Two different recorded edges into `b` see different counts before
      them, so along one `_traversed` at most one edge into `b` sees the
      count `len(b._in) - 1` that fires `b`. */
  lemma CountIntoFiresOnce(t: seq<(nat, nat)>, i: nat, j: nat, b: nat)
    requires i < j < |t| && t[i].1 == b && t[j].1 == b
    ensures CountInto(t[..i], b) < CountInto(t[..j], b)
  {
    assert t[..i + 1] == t[..i] + [t[i]];
    CountIntoAppend(t[..i], t[i], b);
    CountIntoPrefix(t, i + 1, j, b);
  }

  class Graph {
    const arena: Arena
    /** The graph's own node. */
    const me: nat
    /** `_start_node`. */
    const start: nat
    /** `_end_node`. */
    const end: nat
    /** `_node_list`. */
    var nodeList: seq<nat>
    var origins: seq<nat>
    /** `_call_returns`, keyed by node id, in insertion order. */
    var callReturns: seq<(nat, Value)>
    /** `_called_nodes`. */
    var calledNodes: seq<nat>
    /** `_called_nodes_names`. */
    var calledNames: seq<string>
    /** `_traversed`: the edges a visit has passed on. */
    var traversed: seq<(nat, nat)>
    /** Visits submitted and not yet run: the node and its `run` flag. */
    var queue: seq<(nat, bool)>

    ghost predicate Valid()
      reads this, arena
    {
      && arena.Valid()
      && arena.IsNode(me) && arena.IsNode(start) && arena.IsNode(end) && start != end
      && start in nodeList && end in nodeList
      && AllBelow(nodeList, |arena.names|) && AllBelow(origins, |arena.names|)
      && (forall j :: 0 <= j < |nodeList| ==> nodeList[j] < |arena.names|)
      && NoDup(calledNodes) && (forall x :: x in calledNodes ==> x in nodeList)
      && NoDup(traversed) && (forall t :: t in traversed ==> t.0 < |arena.names| && t.1 < |arena.names|)
      && (forall q :: q in queue ==> q.0 < |arena.names|)
    }

    /** The graph's own node and its two sentinels, created in that order. */
    static method NewNodes(a: Arena, name: string) returns (m: nat, s: nat, e: nat)
      requires a.Valid()
      modifies a
      ensures a.Valid() && m == old(|a.names|) && s == m + 1 && e == m + 2
      ensures a.names == old(a.names) + [name, name + "_start", name + "_end"]
      ensures a.outs == old(a.outs) + [[], [], []]
    {
      m := a.NewNode(name, map[]);
      s := a.NewNode(name + "_start", map[]);
      e := a.NewNode(name + "_end", map[]);
    }

    /** `Graph(name, node_list)`: fresh nodes for the graph and its two
        sentinels; the start sentinel leads to the origins, and every other
        member without successors leads to the end sentinel. */
    constructor (a: Arena, name: string, nodes: seq<nat>)
      requires a.Valid() && AllBelow(nodes, |a.names|)
      modifies a
      ensures Valid() && arena == a
      ensures me == old(|a.names|) && start == me + 1 && end == me + 2
      ensures a.names == old(a.names) + [name, name + "_start", name + "_end"]
      ensures nodeList == [start] + nodes + [end]
      ensures forall p :: p in origins <==> p in nodes && forall m :: m in nodes ==> p !in old(a.outs[m])
      ensures forall o :: o in a.outs[start] <==> o in origins || (origins == [] && o == end)
      ensures forall n :: n in nodes ==> a.outs[n] == if old(a.outs[n]) == [] then [end] else old(a.outs[n])
      ensures a.outs[end] == []
      ensures callReturns == [] && calledNodes == [] && calledNames == [] && traversed == [] && queue == []
    {
      arena := a;
      var m, s, e := NewNodes(a, name);
      assert forall x :: x in nodes ==> a.outs[x] == old(a.outs[x]) && x != s && x != e;
      var os := WireFresh(a, nodes, s, e, old(a.outs));
      FreshBelow(nodes, s, e, |a.names|);
      me, start, end := m, s, e;
      nodeList, origins := [s] + nodes + [e], os;
      callReturns, calledNodes, calledNames, traversed, queue := [], [], [], [], [];
    }

    /** `g[index]`: ValueError for a non-integer (a bool is the integer 0
        or 1), IndexError out of range. */
    function GetItem(index: Value): (r: Result<nat>)
      reads this
      ensures !index.Int? && !index.Bool? ==> r == Err(ValueError)
      ensures index.Int? ==> (r.Ok? <==> PyIndex(|nodeList|, index.i).Some?)
      ensures index.Int? && r.Ok? ==> r.value == nodeList[PyIndex(|nodeList|, index.i).value]
      ensures index.Bool? ==> (r.Ok? <==> |nodeList| > (if index.b then 1 else 0))
      ensures r.Err? && (index.Int? || index.Bool?) ==> r.error == IndexError
    {
      var i := match index
        case Int(i) => Some(i)
        case Bool(b) => Some(if b then 1 else 0)
        case _ => None;
      if i.None? then Err(ValueError)
      else
        match PyIndex(|nodeList|, i.value)
        case None => Err(IndexError)
        case Some(k) => Ok(nodeList[k])
    }

    /** The linking of `Graph(name, nodes)` with fresh sentinels `s` and
        `e`. */
    static method WireFresh(a: Arena, nodes: seq<nat>, s: nat, e: nat, ghost o0: seq<seq<nat>>) returns (os: seq<nat>)
      requires a.Valid() && a.IsNode(s) && a.IsNode(e) && s != e && s !in nodes && e !in nodes
      requires AllBelow(nodes, |a.names|) && a.outs[s] == [] && a.outs[e] == []
      requires AllBelow(nodes, |o0|) && forall x :: x in nodes ==> a.outs[x] == o0[x]
      modifies a
      ensures a.Valid() && a.EdgesOnly() && AllBelow(os, |a.names|)
      ensures forall p :: p in os <==> p in nodes && forall m :: m in nodes ==> p !in o0[m]
      ensures forall o :: o in a.outs[s] <==> o in os || (os == [] && o == e)
      ensures forall n :: n in nodes ==> a.outs[n] == if o0[n] == [] then [e] else o0[n]
      ensures a.outs[e] == []
    {
      var nl := [s] + nodes + [e];
      forall p
        ensures IsOrigin(nl, a.outs, s, e, p) <==> p in nodes && forall m :: m in nodes ==> p !in a.outs[m]
      {
        FreshOrigins(nodes, a.outs, s, e, p);
      }
      assert forall x :: x in nodes ==> x in nl && x != e && x != s;
      os := Wire(a, nl, s, e);
    }

    /** The linking of a graph whose start sentinel has no successors yet:
        start to the origins, and the members without successors to the end
        sentinel. */
    static method Wire(a: Arena, nl: seq<nat>, s: nat, e: nat) returns (os: seq<nat>)
      requires a.Valid() && a.IsNode(s) && a.IsNode(e) && s != e
      requires s in nl && AllBelow(nl, |a.names|) && a.outs[s] == []
      modifies a
      ensures a.Valid() && a.EdgesOnly() && AllBelow(os, |a.names|)
      ensures forall p :: p in os <==> IsOrigin(nl, old(a.outs), s, e, p)
      ensures forall o :: o in a.outs[s] <==> o in os || (os == [] && o == e)
      ensures forall x :: 0 <= x < |a.outs| && x != s ==>
        a.outs[x] == if x in nl && x != e && old(a.outs[x]) == [] then [e] else old(a.outs[x])
    {
      os := FindOrigins(a, nl, s, e);
      LinkStart(a, s, os);
      ghost var mid := a.outs;
      assert forall o :: o in mid[s] <==> o in os;
      LinkEnds(a, nl, e);
      assert os != [] ==> os[0] in mid[s];
      assert mid[s] != [] ==> mid[s][0] in os;
      assert a.outs[s] == if mid[s] == [] then [e] else mid[s];
    }

    /** `find_origins()`. */
    static method FindOrigins(a: Arena, nl: seq<nat>, s: nat, e: nat) returns (r: seq<nat>)
      requires a.Valid() && AllBelow(nl, |a.names|)
      ensures r == OriginsOf(nl, Children(nl, a.outs, s, e), s, e)
      ensures forall p :: p in r <==> IsOrigin(nl, a.outs, s, e, p)
      ensures AllBelow(r, |a.names|)
    {
      var ch := CollectChildren(a, nl, s, e);
      r := CollectOrigins(nl, ch, s, e);
      forall p
        ensures p in r <==> IsOrigin(nl, a.outs, s, e, p)
      {
        OriginsIn(nl, ch, s, e, p);
        ChildrenIn(nl, a.outs, s, e, p);
      }
    }

    /** The first loop of `find_origins`: the successors of every member
        other than the sentinels. */
    static method CollectChildren(a: Arena, nl: seq<nat>, s: nat, e: nat) returns (ch: seq<nat>)
      requires a.Valid() && AllBelow(nl, |a.names|)
      ensures ch == Children(nl, a.outs, s, e)
    {
      ch := [];
      var i := 0;
      while i < |nl|
        invariant 0 <= i <= |nl| && AllBelow(nl[..i], |a.outs|)
        invariant ch == Children(nl[..i], a.outs, s, e)
      {
        var node := nl[i];
        assert nl[..i + 1] == nl[..i] + [node];
        assert node in nl;
        if node != s && node != e {
          ch := ch + a.outs[node];
        }
        i := i + 1;
      }
      assert nl[..i] == nl;
    }

    /** The comprehension of `find_origins`: the members other than the
        sentinels that are not in `ch`. */
    static method CollectOrigins(nl: seq<nat>, ch: seq<nat>, s: nat, e: nat) returns (r: seq<nat>)
      ensures r == OriginsOf(nl, ch, s, e)
    {
      r := [];
      var i := 0;
      while i < |nl|
        invariant 0 <= i <= |nl|
        invariant r == OriginsOf(nl[..i], ch, s, e)
      {
        var p := nl[i];
        assert nl[..i + 1][..i] == nl[..i];
        if p !in ch && p != s && p != e {
          r := r + [p];
        }
        i := i + 1;
      }
      assert nl[..i] == nl;
    }

    /** `self._start_node.link_to(o)` for every `o` of `os`. */
    static method LinkStart(a: Arena, s: nat, os: seq<nat>)
      requires a.Valid() && a.IsNode(s) && AllBelow(os, |a.names|)
      modifies a
      ensures a.Valid() && a.EdgesOnly()
      ensures forall x :: 0 <= x < |a.outs| && x != s ==> a.outs[x] == old(a.outs[x])
      ensures forall o :: o in a.outs[s] <==> o in old(a.outs[s]) || o in os
      ensures forall x :: 0 <= x < |a.ins| ==> old(a.ins[x]) <= a.ins[x]
      ensures forall x :: 0 <= x < |a.ins| && x !in os ==> a.ins[x] == old(a.ins[x])
    {
      var i := 0;
      while i < |os|
        invariant 0 <= i <= |os| && a.Valid() && a.EdgesOnly()
        invariant forall x :: 0 <= x < |a.outs| && x != s ==> a.outs[x] == old(a.outs[x])
        invariant forall o :: o in a.outs[s] <==> o in old(a.outs[s]) || o in os[..i]
        invariant forall x :: 0 <= x < |a.ins| ==> old(a.ins[x]) <= a.ins[x]
        invariant forall x :: 0 <= x < |a.ins| && x !in os[..i] ==> a.ins[x] == old(a.ins[x])
      {
        assert os[..i + 1] == os[..i] + [os[i]] && os[i] in os;
        a.LinkTo(s, os[i], map[], true, false);
        i := i + 1;
      }
      assert os[..i] == os;
    }

    /** One turn of the end-linking loop: `n` is linked to the end
        sentinel when it has no successors and is not the sentinel. */
    static method LinkEnd(a: Arena, n: nat, e: nat)
      requires a.Valid() && a.IsNode(e) && a.IsNode(n)
      modifies a
      ensures a.Valid() && a.EdgesOnly()
      ensures a.outs == old(a.outs)[n := if n != e && old(a.outs[n]) == [] then [e] else old(a.outs[n])]
      ensures forall x :: 0 <= x < |a.ins| ==> old(a.ins[x]) <= a.ins[x]
    {
      if a.outs[n] == [] && n != e {
        assert a.outs[n] + [e] == [e];
        a.LinkTo(n, e, map[], true, false);
      }
    }

    /** `n.link_to(self._end_node)` for every member other than the e
        sentinel whose successor list is empty when its turn comes. */
    static method LinkEnds(a: Arena, nl: seq<nat>, e: nat)
      requires a.Valid() && a.IsNode(e) && AllBelow(nl, |a.names|)
      modifies a
      ensures a.Valid() && a.EdgesOnly()
      ensures forall x :: 0 <= x < |a.outs| ==>
        a.outs[x] == if x in nl && x != e && old(a.outs[x]) == [] then [e] else old(a.outs[x])
      ensures forall x :: 0 <= x < |a.ins| ==> old(a.ins[x]) <= a.ins[x]
    {
      var i := 0;
      while i < |nl|
        invariant 0 <= i <= |nl| && a.Valid() && a.EdgesOnly()
        invariant forall x :: 0 <= x < |a.outs| ==>
          a.outs[x] == if x in nl[..i] && x != e && old(a.outs[x]) == [] then [e] else old(a.outs[x])
        invariant forall x :: 0 <= x < |a.ins| ==> old(a.ins[x]) <= a.ins[x]
      {
        var n := nl[i];
        assert n in nl;
        assert forall x :: x in nl[..i + 1] <==> x in nl[..i] || x == n by {
          assert nl[..i + 1] == nl[..i] + [n];
        }
        LinkEnd(a, n, e);
        i := i + 1;
      }
      assert nl[..i] == nl;
    }

    /** `for n in self._start_node: self._start_node.unlink_from(n)` as
        written: the loop iterates over the successor list it shrinks, so
        each removal makes it skip the next successor. */
    static method UnlinkStartAsWritten(a: Arena, s: nat)
      requires a.Valid() && a.IsNode(s)
      modifies a
      ensures a.Valid() && a.EdgesOnly() && a.ins == old(a.ins)
      ensures a.outs == old(a.outs)[s := OddPositions(old(a.outs[s]))]
    {
      ghost var s0 := a.outs[s];
      var i := 0;
      while i < |a.outs[s]|
        invariant a.Valid() && a.EdgesOnly() && a.ins == old(a.ins)
        invariant a.outs == old(a.outs)[s := AfterRounds(s0, i)]
        decreases |a.outs[s]| - i
      {
        var x := a.outs[s][i];
        RemoveFirstSub(a.outs[s], x);
        i := i + 1;
        a.UnlinkFrom(s, x);
      }
      AfterRoundsHalve(s0, i);
      HalvedLength(s0, i);
      HalvedDone(s0, i);
    }

    /** Removes every successor of the start sentinel: what the unlink loop
        of `add_node` and `link_from_to` is meant to do. */
    static method UnlinkSuccessors(a: Arena, s: nat)
      requires a.Valid() && a.IsNode(s)
      modifies a
      ensures a.Valid() && a.EdgesOnly() && a.ins == old(a.ins)
      ensures a.outs == old(a.outs)[s := []]
    {
      while a.outs[s] != []
        invariant a.Valid() && a.EdgesOnly() && a.ins == old(a.ins)
        invariant a.outs == old(a.outs)[s := a.outs[s]]
        decreases |a.outs[s]|
      {
        RemoveFirstSub(a.outs[s], a.outs[s][0]);
        a.UnlinkFrom(s, a.outs[s][0]);
      }
    }

    /** `for n in self._end_node._in: n.unlink_from(self._end_node)`. The
        list iterated is the end sentinel's predecessor list, which
        unlinking leaves alone, so every predecessor is visited. */
    static method UnlinkEnd(a: Arena, e: nat)
      requires a.Valid() && a.IsNode(e)
      modifies a
      ensures a.Valid() && a.EdgesOnly() && a.ins == old(a.ins)
      ensures forall x :: 0 <= x < |a.outs| && x !in old(a.ins[e]) ==> a.outs[x] == old(a.outs[x])
      ensures forall x :: 0 <= x < |a.outs| && x in old(a.ins[e]) ==> a.outs[x] == Unlinked(old(a.outs[x]), e)
    {
      var preds := a.ins[e];
      var i := 0;
      while i < |preds|
        invariant 0 <= i <= |preds| && a.Valid() && a.EdgesOnly() && a.ins == old(a.ins)
        invariant forall x :: 0 <= x < |a.outs| && x !in preds[..i] ==> a.outs[x] == old(a.outs[x])
        invariant forall x :: 0 <= x < |a.outs| && x in preds[..i] ==> a.outs[x] == Unlinked(old(a.outs[x]), e)
      {
        var n := preds[i];
        assert n in a.ins[e];
        assert forall x :: x in preds[..i + 1] <==> x in preds[..i] || x == n by {
          assert preds[..i + 1] == preds[..i] + [n];
        }
        if n in preds[..i] {
          UnlinkedTwice(old(a.outs[n]), e);
        }
        a.UnlinkFrom(n, e);
        i := i + 1;
      }
      assert preds[..i] == preds;
    }

    /** The tail of `add_node`, with the start sentinel's successors
        cleared as intended: start is relinked to the current origins, and
        the end sentinel to the members left without successors. */
    static method Relink(a: Arena, nl: seq<nat>, s: nat, e: nat) returns (os: seq<nat>)
      requires a.Valid() && a.IsNode(s) && a.IsNode(e) && s != e && s in nl && AllBelow(nl, |a.names|)
      modifies a
      ensures a.Valid() && a.EdgesOnly()
      ensures forall p :: p in os <==> IsOrigin(nl, old(a.outs), s, e, p)
      ensures forall o :: o in a.outs[s] <==> o in os || (os == [] && o == e)
      ensures forall x, y :: 0 <= x < |a.outs| && x != s && y != e ==> (y in a.outs[x] <==> y in old(a.outs[x]))
      ensures forall x :: x in nl && x != e ==> a.outs[x] != []
      ensures forall x :: x in nl && x != s && x != e && (e in old(a.outs[x]) ==> x in old(a.ins[e])) ==>
        (e in a.outs[x] <==> forall y :: y in old(a.outs[x]) ==> y == e)
    {
      UnlinkSuccessors(a, s);
      ghost var o1 := a.outs;
      os := FindOrigins(a, nl, s, e);
      forall p
        ensures IsOrigin(nl, o1, s, e, p) <==> IsOrigin(nl, old(a.outs), s, e, p)
      {
        assert forall m :: 0 <= m < |o1| && m != s ==> o1[m] == old(a.outs[m]);
      }
      LinkStart(a, s, os);
      ghost var o2 := a.outs;
      assert e !in os;
      UnlinkEnd(a, e);
      ghost var o3 := a.outs;
      LinkEnds(a, nl, e);
      RelinkEdges(old(a.outs), o2, o3, a.outs, old(a.ins[e]), nl, s, e, os);
    }

    /** `add_node(new_node)` without `auto_connect`: ValueError for a value
        that is not a node; otherwise the node joins the list unless it is
        already there, and both sentinels are relinked. */
    method AddNode(node: Option<nat>) returns (r: Outcome)
      requires Valid() && (node.Some? ==> arena.IsNode(node.value))
      modifies this, arena
      ensures Valid() && arena.EdgesOnly()
      ensures r.Fail? <==> node.None?
      ensures r.Fail? ==> r.error == ValueError && nodeList == old(nodeList) && arena.outs == old(arena.outs)
      ensures r.Pass? ==> nodeList == if node.value in old(nodeList) then old(nodeList) else old(nodeList) + [node.value]
      ensures r.Pass? ==> forall o :: o != end ==> (o in arena.outs[start] <==> IsOrigin(nodeList, old(arena.outs), start, end, o))
      ensures r.Pass? ==> (end in arena.outs[start] <==> forall p :: !IsOrigin(nodeList, old(arena.outs), start, end, p))
      ensures r.Pass? ==> forall x, y :: 0 <= x < |arena.outs| && x != start && y != end ==> (y in arena.outs[x] <==> y in old(arena.outs[x]))
      ensures r.Pass? ==> forall x :: x in nodeList && x != end ==> arena.outs[x] != []
      ensures r.Pass? ==> forall x :: x in nodeList && x != start && x != end && (end in old(arena.outs[x]) ==> x in old(arena.ins[end])) ==>
        (end in arena.outs[x] <==> forall y :: y in old(arena.outs[x]) ==> y == end)
      ensures origins == old(origins) && callReturns == old(callReturns) && calledNodes == old(calledNodes)
      ensures calledNames == old(calledNames) && traversed == old(traversed) && queue == old(queue)
    {
      if node.None? {
        return Fail(ValueError);
      }
      if node.value !in nodeList {
        nodeList := nodeList + [node.value];
      }
      var os := Relink(arena, nodeList, start, end);
      if os != [] {
        assert os[0] in os;
      }
      return Pass;
    }

    /** `self == other`: the other is a graph with as many members and
        every member of this one is a member of it. Each graph has its own
        sentinels, so two distinct graphs are equal only when one lists the
        other's sentinels among its members. */
    method Eq(other: Option<Graph>) returns (r: bool)
      requires Valid()
      ensures r <==> (other.Some? && |nodeList| == |other.value.nodeList| &&
        forall n :: n in nodeList ==> n in other.value.nodeList)
      ensures r ==> start in other.value.nodeList && end in other.value.nodeList
    {
      if other.None? || |nodeList| != |other.value.nodeList| {
        return false;
      }
      var i := 0;
      while i < |nodeList|
        invariant 0 <= i <= |nodeList| && forall j :: 0 <= j < i ==> nodeList[j] in other.value.nodeList
      {
        if nodeList[i] !in other.value.nodeList {
          return false;
        }
        i := i + 1;
      }
      return true;
    }

    /** `index(node)`: the position of the node itself, else of the first
        member with the same name, else None. */
    method Index(node: nat) returns (r: Option<nat>)
      requires Valid() && arena.IsNode(node)
      ensures node in nodeList ==> r == Some(IndexOf(nodeList, node))
      ensures node !in nodeList && r.Some? ==> r.value < |nodeList| && arena.names[nodeList[r.value]] == arena.names[node]
      ensures node !in nodeList && r.Some? ==> forall j :: 0 <= j < r.value ==> arena.names[nodeList[j]] != arena.names[node]
      ensures node !in nodeList && r.None? ==> forall j :: 0 <= j < |nodeList| ==> arena.names[nodeList[j]] != arena.names[node]
    {
      if node in nodeList {
        return Some(IndexOf(nodeList, node));
      }
      var i := 0;
      while i < |nodeList|
        invariant 0 <= i <= |nodeList|
        invariant forall j :: 0 <= j < i ==> arena.names[nodeList[j]] != arena.names[node]
      {
        if arena.names[node] == arena.names[nodeList[i]] {
          return Some(i);
        }
        i := i + 1;
      }
      return None;
    }

    /** The depth-first preorder `node_explore` builds from `n` with `fuel`
        frames: `n` is appended unless already there or a sentinel, then each
        successor in turn is explored with the list as it has grown. */
    ghost function Preorder(fuel: nat, n: nat, explored: seq<nat>): Result<seq<nat>>
      requires arena.Valid() && arena.IsNode(n)
      reads arena
      decreases fuel, 0
    {
      if fuel == 0 then Err(RecursionError)
      else
        assert forall j :: 0 <= j < |arena.outs[n]| ==> arena.outs[n][j] in arena.outs[n];
        PreorderFrom(fuel - 1, arena.outs[n], 0, Noted(n, explored))
    }

    /** `explored` with `n` appended, unless it is there or a sentinel. */
    ghost function Noted(n: nat, explored: seq<nat>): seq<nat> {
      if n !in explored && n != start && n != end then explored + [n] else explored
    }

    /** The successors `succ[i..]` explored in order, each with `fuel`
        frames, threading the list through; the first failure stops. */
    ghost function PreorderFrom(fuel: nat, succ: seq<nat>, i: nat, acc: seq<nat>): Result<seq<nat>>
      requires arena.Valid() && i <= |succ| && forall j :: 0 <= j < |succ| ==> arena.IsNode(succ[j])
      reads arena
      decreases fuel, 1, |succ| - i
    {
      if i == |succ| then Ok(acc)
      else
        match Preorder(fuel, succ[i], acc)
        case Err(e) => Err(e)
        case Ok(acc1) => PreorderFrom(fuel, succ, i + 1, acc1)
    }

    /** The preorder from `n` succeeds exactly when no walk of `fuel` edges
        leaves `n`; it only appends to `explored`, never twice the same
        node, and it adds exactly the nodes other than the sentinels that
        are reached within `fuel - 1` edges. */
    lemma {:induction false} PreorderFacts(fuel: nat, n: nat, explored: seq<nat>)
      requires arena.Valid() && arena.IsNode(n)
      ensures Preorder(fuel, n, explored).Ok? <==> !arena.HasWalk(n, fuel)
      ensures Preorder(fuel, n, explored).Err? ==> Preorder(fuel, n, explored).error == RecursionError
      ensures Preorder(fuel, n, explored).Ok? ==> fuel >= 1 && explored <= Preorder(fuel, n, explored).value
      ensures Preorder(fuel, n, explored).Ok? && NoDup(explored) ==> NoDup(Preorder(fuel, n, explored).value)
      ensures Preorder(fuel, n, explored).Ok? ==> forall x :: x in Preorder(fuel, n, explored).value ==>
        x in explored || (x != start && x != end && arena.Reach(n, x, fuel - 1))
      ensures Preorder(fuel, n, explored).Ok? ==> forall x :: x != start && x != end && arena.Reach(n, x, fuel - 1) ==>
        x in Preorder(fuel, n, explored).value
      decreases fuel, 0
    {
      if fuel > 0 {
        var succ := arena.outs[n];
        var acc := Noted(n, explored);
        assert forall j :: 0 <= j < |succ| ==> succ[j] in arena.outs[n];
        PreorderFromFacts(fuel - 1, succ, 0, acc);
        if NoDup(explored) && acc != explored {
          NoDupAppend(explored, n);
        }
        if PreorderFrom(fuel - 1, succ, 0, acc).Ok? {
          var r := PreorderFrom(fuel - 1, succ, 0, acc).value;
          forall x | x in acc
            ensures x in r
          {
            PrefixIn(acc, r, x);
          }
          if fuel >= 2 {
            assert forall c :: c in arena.outs[n] ==> exists j :: 0 <= j < |succ| && succ[j] == c;
          }
        } else {
          var j :| 0 <= j < |succ| && arena.HasWalk(succ[j], fuel - 1);
          assert succ[j] in arena.outs[n];
        }
      }
    }

    /** The same for the successors `succ[i..]` explored from `acc`. */
    lemma {:induction false} PreorderFromFacts(fuel: nat, succ: seq<nat>, i: nat, acc: seq<nat>)
      requires arena.Valid() && i <= |succ| && forall j :: 0 <= j < |succ| ==> arena.IsNode(succ[j])
      ensures PreorderFrom(fuel, succ, i, acc).Ok? <==> forall j :: i <= j < |succ| ==> !arena.HasWalk(succ[j], fuel)
      ensures PreorderFrom(fuel, succ, i, acc).Err? ==> PreorderFrom(fuel, succ, i, acc).error == RecursionError
      ensures PreorderFrom(fuel, succ, i, acc).Ok? ==> acc <= PreorderFrom(fuel, succ, i, acc).value
      ensures PreorderFrom(fuel, succ, i, acc).Ok? && NoDup(acc) ==> NoDup(PreorderFrom(fuel, succ, i, acc).value)
      ensures PreorderFrom(fuel, succ, i, acc).Ok? ==> forall x :: x in PreorderFrom(fuel, succ, i, acc).value ==>
        x in acc || (x != start && x != end && exists j :: i <= j < |succ| && fuel >= 1 && arena.Reach(succ[j], x, fuel - 1))
      ensures PreorderFrom(fuel, succ, i, acc).Ok? ==> forall j, x ::
        (i <= j < |succ| && fuel >= 1 && x != start && x != end && arena.Reach(succ[j], x, fuel - 1)) ==>
        x in PreorderFrom(fuel, succ, i, acc).value
      decreases fuel, 1, |succ| - i
    {
      if i < |succ| {
        PreorderFacts(fuel, succ[i], acc);
        var p := Preorder(fuel, succ[i], acc);
        if p.Ok? {
          PreorderFromFacts(fuel, succ, i + 1, p.value);
          var r := PreorderFrom(fuel, succ, i + 1, p.value);
          if r.Ok? {
            forall x | x in p.value
              ensures x in r.value
            {
              PrefixIn(p.value, r.value, x);
            }
          }
        }
      }
    }

    /** `node_explore(node, explored)` with `fuel` frames left: appends the
        node unless it is already there or a sentinel, then explores every
        successor, with no check for nodes explored before. The list it
        builds is the preorder `Preorder`, whose properties follow. */
    method Explore(fuel: nat, n: nat, explored: seq<nat>) returns (r: Result<seq<nat>>)
      requires arena.Valid() && arena.IsNode(n)
      ensures r == Preorder(fuel, n, explored)
      decreases fuel
    {
      if fuel == 0 {
        return Err(RecursionError);
      }
      var acc := explored;
      if n !in acc && n != start && n != end {
        acc := acc + [n];
      }
      var succ := arena.outs[n];
      assert forall j :: 0 <= j < |succ| ==> succ[j] in arena.outs[n];
      var i := 0;
      while i < |succ|
        invariant 0 <= i <= |succ|
        invariant forall j :: 0 <= j < |succ| ==> arena.IsNode(succ[j])
        invariant Preorder(fuel, n, explored) == PreorderFrom(fuel - 1, succ, i, acc)
      {
        var res := Explore(fuel - 1, succ[i], acc);
        if res.Err? {
          return Err(res.error);
        }
        acc := res.value;
        i := i + 1;
      }
      r := Ok(acc);
    }

    /** `node_explore(node, explored)`: ValueError when the argument is not a
        node. */
    method NodeExplore(fuel: nat, node: Option<nat>, explored: seq<nat>) returns (r: Result<seq<nat>>)
      requires arena.Valid() && (node.Some? ==> arena.IsNode(node.value))
      ensures node.None? ==> r == Err(ValueError)
      ensures node.Some? ==> r == Preorder(fuel, node.value, explored)
      ensures node.Some? ==> (r.Ok? <==> !arena.HasWalk(node.value, fuel))
      ensures node.Some? && r.Err? ==> r.error == RecursionError
      ensures r.Ok? ==> explored <= r.value && (NoDup(explored) ==> NoDup(r.value))
      ensures r.Ok? ==> forall x :: x in r.value ==>
        x in explored || (x != start && x != end && arena.Reachable(node.value, x))
      ensures r.Ok? ==> forall x :: x != start && x != end && arena.Reachable(node.value, x) ==> x in r.value
    {
      if node.None? {
        return Err(ValueError);
      }
      r := Explore(fuel, node.value, explored);
      PreorderFacts(fuel, node.value, explored);
      if r.Ok? {
        forall x | x != start && x != end && arena.Reachable(node.value, x)
          ensures x in r.value
        {
          var d: nat :| arena.Reach(node.value, x, d);
          arena.ReachBounded(node.value, x, fuel, d);
        }
      }
    }

    /** The first loop of `_top_and_tail`: `n._in.remove(start)` for every
        successor `n` of the start sentinel, ValueError when one does not
        list it. */
    static method RemoveStartFromSuccessors(a: Arena, s: nat) returns (r: Outcome)
      requires a.Valid() && a.IsNode(s)
      modifies a
      ensures a.Valid() && a.EdgesOnly() && a.outs == old(a.outs)
      ensures r.Fail? <==> exists n :: n in old(a.outs[s]) && s !in old(a.ins[n])
      ensures r.Fail? ==> r.error == ValueError
      ensures r.Pass? ==> forall x :: 0 <= x < |a.ins| ==>
        a.ins[x] == if x in old(a.outs[s]) then Unlinked(old(a.ins[x]), s) else old(a.ins[x])
    {
      var succ := a.outs[s];
      assert forall j :: 0 <= j < |succ| ==> succ[j] in a.outs[s];
      var i := 0;
      while i < |succ|
        invariant 0 <= i <= |succ| && a.Valid() && a.EdgesOnly() && a.outs == old(a.outs)
        invariant |a.ins| == |old(a.ins)| && forall j :: 0 <= j < |succ| ==> succ[j] < |a.ins|
        invariant forall j :: 0 <= j < i ==> s in old(a.ins[succ[j]])
        invariant forall x :: 0 <= x < |a.ins| ==>
          a.ins[x] == if x in succ[..i] then Unlinked(old(a.ins[x]), s) else old(a.ins[x])
      {
        var n := succ[i];
        assert n in a.outs[s];
        assert n !in succ[..i] by {
          assert NoDup(succ);
        }
        assert forall x :: x in succ[..i + 1] <==> x in succ[..i] || x == n by {
          assert succ[..i + 1] == succ[..i] + [n];
        }
        var res := a.RemoveIn(n, s);
        if res.Fail? {
          assert n in old(a.outs[s]) && s !in old(a.ins[n]);
          return Fail(ValueError);
        }
        i := i + 1;
      }
      assert succ[..i] == succ;
      forall n | n in succ
        ensures s in old(a.ins[n])
      {
        var j :| 0 <= j < |succ| && succ[j] == n;
      }
      return Pass;
    }

    /** The second loop of `_top_and_tail`: `n._out.remove(end)` for every
        predecessor `n` the end sentinel records. It raises ValueError
        exactly when some recorded predecessor no longer lists end, or one is
        recorded twice (its edge is gone after the first removal). */
    static method RemoveEndFromPredecessors(a: Arena, e: nat) returns (r: Outcome)
      requires a.Valid() && a.IsNode(e)
      modifies a
      ensures a.Valid() && a.EdgesOnly() && a.ins == old(a.ins)
      ensures r.Fail? ==> r.error == ValueError
      ensures r.Pass? <==> EndEdges(old(a.ins[e]), old(a.outs), e)
      ensures r.Pass? ==> forall x :: 0 <= x < |a.outs| ==>
        a.outs[x] == if x in old(a.ins[e]) then Unlinked(old(a.outs[x]), e) else old(a.outs[x])
      ensures r.Pass? ==> forall x :: 0 <= x < |a.outs| && x in old(a.ins[e]) ==> e !in a.outs[x]
    {
      var preds := a.ins[e];
      ghost var o0 := a.outs;
      var i := 0;
      while i < |preds|
        invariant 0 <= i <= |preds| && a.Valid() && a.EdgesOnly() && a.ins == old(a.ins)
        invariant forall x :: 0 <= x < |a.outs| ==>
          a.outs[x] == if x in preds[..i] then Unlinked(o0[x], e) else o0[x]
        invariant forall x :: 0 <= x < |a.outs| && x in preds[..i] ==> e !in a.outs[x]
        invariant EndEdges(preds[..i], o0, e)
      {
        var n := preds[i];
        assert n in a.ins[e];
        assert preds[..i + 1] == preds[..i] + [n];
        if e !in a.outs[n] {
          EndEdgesFail(preds, i, o0, e);
          return Fail(ValueError);
        }
        EndEdgesStep(preds[..i], n, o0, e);
        UnlinkedIn(o0[n], e);
        a.UnlinkFrom(n, e);
        i := i + 1;
      }
      assert preds[..i] == preds;
      return Pass;
    }

    /** `_top_and_tail()`: detaches the sentinels from the members and
        returns the members other than the sentinels. The end loop walks
        end's `_in` as the start loop left it, and `_in` lists are never
        pruned by `unlink_from`, so a stale entry there (a node that once
        led to end and no longer does) makes it raise ValueError. */
    method TopAndTail() returns (r: Result<seq<nat>>)
      requires Valid()
      modifies arena
      ensures arena.Valid() && arena.EdgesOnly()
      ensures r.Err? ==> r.error == ValueError
      ensures r.Ok? <==>
        (forall n :: n in old(arena.outs[start]) ==> start in old(arena.ins[n])) &&
        EndEdges(TailPreds(old(arena.outs[start]), old(arena.ins[end]), start, end), old(arena.outs), end)
      ensures r.Ok? ==> r.value == Inner(nodeList, start, end)
      ensures r.Ok? ==> forall x :: 0 <= x < |arena.ins| ==>
        arena.ins[x] == if x in old(arena.outs[start]) then Unlinked(old(arena.ins[x]), start) else old(arena.ins[x])
      ensures r.Ok? ==> forall x :: 0 <= x < |arena.outs| ==>
        arena.outs[x] == if x in TailPreds(old(arena.outs[start]), old(arena.ins[end]), start, end)
                         then Unlinked(old(arena.outs[x]), end) else old(arena.outs[x])
      ensures r.Ok? ==> forall x :: 0 <= x < |arena.outs| && x in arena.ins[end] ==> end !in arena.outs[x]
    {
      var r1 := RemoveStartFromSuccessors(arena, start);
      if r1.Fail? {
        return Err(r1.error);
      }
      var r2 := RemoveEndFromPredecessors(arena, end);
      if r2.Fail? {
        return Err(r2.error);
      }
      return Ok(Inner(nodeList, start, end));
    }

    /** The loop of `merge` over the other graph's members: `add_node` for
        each one not yet present. A member already present is the same node,
        whose successors are its own, so the source's relinking loop adds
        nothing for it. */
    method AddAll(inner: seq<nat>)
      requires Valid() && AllBelow(inner, |arena.names|)
      modifies this, arena
      ensures Valid() && arena.EdgesOnly()
      ensures old(nodeList) <= nodeList
      ensures forall x :: x in nodeList ==> x in old(nodeList) || x in inner
      ensures forall x :: x in inner ==> x in nodeList
      ensures origins == old(origins) && calledNodes == old(calledNodes) && traversed == old(traversed) && queue == old(queue)
    {
      var i := 0;
      while i < |inner|
        invariant 0 <= i <= |inner| && Valid() && arena.EdgesOnly()
        invariant old(nodeList) <= nodeList && forall x :: x in nodeList ==> x in old(nodeList) || x in inner
        invariant forall x :: x in inner[..i] ==> x in nodeList
        invariant origins == old(origins) && calledNodes == old(calledNodes) && traversed == old(traversed) && queue == old(queue)
      {
        assert inner[i] in inner;
        assert forall x :: x in inner[..i + 1] <==> x in inner[..i] || x == inner[i] by {
          assert inner[..i + 1] == inner[..i] + [inner[i]];
        }
        if inner[i] !in nodeList {
          var res := AddNode(Some(inner[i]));
        }
        i := i + 1;
      }
      assert inner[..i] == inner;
    }

    /** `merge(other)`: when the two graphs share a node name (sentinels
        included), the other graph's members join this one and the start
        sentinel also leads to the other graph's origins. */
    method Merge(other: Graph) returns (r: Result<bool>)
      requires Valid() && other.Valid() && other.arena == arena && other != this
      modifies this, arena
      ensures Valid() && arena.EdgesOnly()
      ensures r.Err? ==> r.error == ValueError
      ensures r == Ok(false) <==> !Meet(old(arena.NamesOf(nodeList)), old(arena.NamesOf(other.nodeList)))
      ensures r == Ok(false) ==> nodeList == old(nodeList) && arena.outs == old(arena.outs) && arena.ins == old(arena.ins)
      ensures r.Ok? ==> old(nodeList) <= nodeList && forall x :: x in nodeList ==> x in old(nodeList) || x in other.nodeList
      ensures r == Ok(true) ==> forall x :: x in other.nodeList && x != other.start && x != other.end ==> x in nodeList
      ensures r == Ok(true) ==> forall o :: o in other.origins ==> o in arena.outs[start]
      ensures calledNodes == old(calledNodes) && traversed == old(traversed) && queue == old(queue)
    {
      if !Meet(arena.NamesOf(nodeList), arena.NamesOf(other.nodeList)) {
        return Ok(false);
      }
      var tt := other.TopAndTail();
      if tt.Err? {
        return Err(tt.error);
      }
      AddAll(tt.value);
      LinkStart(arena, start, other.origins);
      return Ok(true);
    }

    /** `_call_returns` holds, in call order, the result of every node
        called since it was reset, `c0` being the calls recorded before. */
    ghost predicate Recorded(c0: seq<nat>, job: Job)
      reads this
    {
      && c0 <= calledNodes && |callReturns| == |calledNodes| - |c0|
      && forall i :: 0 <= i < |callReturns| ==> callReturns[i] == (calledNodes[|c0| + i], job(calledNodes[|c0| + i]))
    }

    /** The call in `_follow`: the member marks itself completed at its
        successors and its result is recorded under its id. */
    method Invoke(ghost c0: seq<nat>, n: nat, job: Job)
      requires Valid() && Recorded(c0, job) && n in nodeList && n !in calledNodes
      modifies this, arena
      ensures Valid() && Recorded(c0, job)
      ensures arena.names == old(arena.names) && arena.outs == old(arena.outs) && arena.ins == old(arena.ins)
      ensures nodeList == old(nodeList) && origins == old(origins) && traversed == old(traversed) && queue == old(queue)
      ensures calledNodes == old(calledNodes) + [n] && calledNames == old(calledNames) + [arena.names[n]]
      ensures callReturns == old(callReturns) + [(n, job(n))]
      ensures forall x :: 0 <= x < |arena.completed| ==>
        arena.completed[x] == old(arena.completed[x]) + (if x in arena.outs[n] then [n] else [])
    {
      arena.Call(n);
      forall i | 0 <= i < |callReturns|
        ensures callReturns[i].0 != n
      {
        assert calledNodes[|c0| + i] in calledNodes;
      }
      AssocSetNew(callReturns, n, job(n));
      NoDupAppend(calledNodes, n);
      callReturns := AssocSet(callReturns, n, job(n));
      calledNodes := calledNodes + [n];
      calledNames := calledNames + [arena.names[n]];
    }

    /** One edge `(n, next)` out of a called node: passed on at most once
        per traversal, submitting `next` with `run` set exactly when this is
        the last of its in-edges to be passed on. */
    method ForwardEdge(n: nat, next: nat)
      requires Valid() && n < |arena.names| && next < |arena.names|
      modifies this
      ensures Valid()
      ensures (n, next) in old(traversed) ==> traversed == old(traversed) && queue == old(queue)
      ensures (n, next) !in old(traversed) ==>
        && traversed == old(traversed) + [(n, next)]
        && queue == old(queue) + [(next, CountInto(old(traversed), next) == |arena.ins[next]| - 1)]
        && (queue[|queue| - 1].1 <==> CountInto(traversed, next) == |arena.ins[next]|)
      ensures nodeList == old(nodeList) && origins == old(origins) && callReturns == old(callReturns)
      ensures calledNodes == old(calledNodes) && calledNames == old(calledNames)
    {
      if (n, next) !in traversed {
        var runNext := CountInto(traversed, next) == |arena.ins[next]| - 1;
        CountIntoAppend(traversed, (n, next), next);
        NoDupAppend(traversed, (n, next));
        traversed := traversed + [(n, next)];
        queue := queue + [(next, runNext)];
      }
    }

    /** `for next_node in node` after a call: every out-edge of `n` is
        passed on, in `_out` order. */
    method ForwardAll(n: nat)
      requires Valid() && arena.IsNode(n)
      modifies this
      ensures Valid()
      ensures old(traversed) <= traversed && old(queue) <= queue
      ensures |queue| - |old(queue)| == |traversed| - |old(traversed)|
      ensures forall m :: m in arena.outs[n] ==> (n, m) in traversed
      ensures forall t :: t in traversed ==> t in old(traversed) || (t.0 == n && t.1 in arena.outs[n])
      ensures nodeList == old(nodeList) && origins == old(origins) && callReturns == old(callReturns)
      ensures calledNodes == old(calledNodes) && calledNames == old(calledNames)
    {
      var succ := arena.outs[n];
      var i := 0;
      while i < |succ|
        invariant 0 <= i <= |succ| && Valid()
        invariant old(traversed) <= traversed && old(queue) <= queue
        invariant |queue| - |old(queue)| == |traversed| - |old(traversed)|
        invariant forall m :: m in succ[..i] ==> (n, m) in traversed
        invariant forall t :: t in traversed ==> t in old(traversed) || (t.0 == n && t.1 in succ)
        invariant nodeList == old(nodeList) && origins == old(origins) && callReturns == old(callReturns)
        invariant calledNodes == old(calledNodes) && calledNames == old(calledNames)
      {
        assert succ[i] in arena.outs[n];
        assert succ[..i + 1] == succ[..i] + [succ[i]];
        ForwardEdge(n, succ[i]);
        i := i + 1;
      }
      assert succ[..i] == succ;
    }

    /** One submitted visit, `_follow(node, ..., run)`: a node outside the
        member list is ignored; a ready member not yet called in this
        traversal, visited with `run` set, is called and passes on its
        edges; any other visit changes nothing but the queue. */
    method Step(ghost c0: seq<nat>, job: Job)
      requires Valid() && Recorded(c0, job) && queue != []
      modifies this, arena
      ensures Valid() && Recorded(c0, job)
      ensures nodeList == old(nodeList) && origins == old(origins) && arena.names == old(arena.names)
      ensures arena.outs == old(arena.outs) && arena.ins == old(arena.ins)
      ensures old(calledNodes) <= calledNodes && old(calledNames) <= calledNames
      ensures var n := old(queue[0].0);
        if n in old(nodeList) && old(queue[0].1) && old(arena.Ready(n)) && n !in old(calledNodes) then
          && calledNodes == old(calledNodes) + [n] && callReturns == old(callReturns) + [(n, job(n))]
          && forall m :: m in arena.outs[n] ==> (n, m) in traversed
        else
          && calledNodes == old(calledNodes) && callReturns == old(callReturns)
          && traversed == old(traversed) && queue == old(queue[1..])
    {
      var (n, run) := queue[0];
      assert forall q :: q in queue[1..] ==> q in queue;
      queue := queue[1..];
      if n !in nodeList {
        return;
      }
      if run && arena.Ready(n) && n !in calledNodes {
        Invoke(c0, n, job);
        ForwardAll(n);
      }
    }

    /** The traversal, run until no submitted visit is left. Every visit
        either calls a node not called before or uses up a queued visit,
        so it ends. */
    method Run(ghost c0: seq<nat>, job: Job)
      requires Valid() && Recorded(c0, job)
      modifies this, arena
      ensures Valid() && Recorded(c0, job) && queue == []
      ensures nodeList == old(nodeList) && origins == old(origins) && arena.names == old(arena.names)
      ensures arena.outs == old(arena.outs) && arena.ins == old(arena.ins)
      ensures old(calledNodes) <= calledNodes && old(calledNames) <= calledNames
    {
      NoDupBound(calledNodes, |arena.names|);
      while queue != []
        invariant Valid() && Recorded(c0, job)
        invariant nodeList == old(nodeList) && origins == old(origins) && arena.names == old(arena.names)
        invariant arena.outs == old(arena.outs) && arena.ins == old(arena.ins)
        invariant old(calledNodes) <= calledNodes && old(calledNames) <= calledNames
        invariant |calledNodes| <= |arena.names|
        decreases |arena.names| - |calledNodes|, |queue|
      {
        Step(c0, job);
        NoDupBound(calledNodes, |arena.names|);
      }
    }

    /** `node._completed = []` for every node of `nl`. */
    static method ClearAll(a: Arena, nl: seq<nat>)
      requires a.Valid() && forall j :: 0 <= j < |nl| ==> nl[j] < |a.names|
      modifies a
      ensures a.Valid() && |a.completed| == |old(a.completed)|
      ensures forall x :: 0 <= x < |a.completed| ==> a.completed[x] == if x in nl then [] else old(a.completed[x])
      ensures a.names == old(a.names) && a.outs == old(a.outs) && a.ins == old(a.ins)
      ensures a.linkTraffic == old(a.linkTraffic) && a.envs == old(a.envs) && a.delayed == old(a.delayed)
      ensures a.propagate == old(a.propagate) && a.attributes == old(a.attributes)
    {
      var i := 0;
      while i < |nl|
        invariant 0 <= i <= |nl| && a.Valid() && |a.completed| == |old(a.completed)|
        invariant forall x :: 0 <= x < |a.completed| ==> a.completed[x] == if x in nl[..i] then [] else old(a.completed[x])
        invariant a.names == old(a.names) && a.outs == old(a.outs) && a.ins == old(a.ins)
        invariant a.linkTraffic == old(a.linkTraffic) && a.envs == old(a.envs) && a.delayed == old(a.delayed)
        invariant a.propagate == old(a.propagate) && a.attributes == old(a.attributes)
      {
        assert nl[..i + 1] == nl[..i] + [nl[i]];
        a.ClearCompleted(nl[i]);
        i := i + 1;
      }
      assert nl[..i] == nl;
    }

    /** `func()`: one traversal from the start sentinel, visited with `run`
        set; then the traversal state and every member's `_completed` are
        cleared, and the recorded results are returned, or None when no node
        was called. `_called_nodes_names` is not cleared. */
    method Func(job: Job) returns (r: Option<seq<(nat, Value)>>)
      requires Valid()
      modifies this, arena
      ensures Valid()
      ensures r.None? <==> callReturns == []
      ensures r.Some? ==> r.value == callReturns
      ensures forall i :: 0 <= i < |callReturns| ==>
        callReturns[i].0 in nodeList && callReturns[i].1 == job(callReturns[i].0)
      ensures forall i, j :: 0 <= i < j < |callReturns| ==> callReturns[i].0 != callReturns[j].0
      ensures traversed == [] && queue == [] && calledNodes == []
      ensures old(calledNames) <= calledNames
      ensures forall x :: x in nodeList ==> arena.completed[x] == []
      ensures nodeList == old(nodeList) && origins == old(origins) && arena.names == old(arena.names)
      ensures arena.outs == old(arena.outs) && arena.ins == old(arena.ins)
    {
      ghost var c0 := calledNodes;
      callReturns := [];
      queue := [(start, true)];
      Run(c0, job);
      ghost var called := calledNodes;
      forall i | 0 <= i < |callReturns|
        ensures callReturns[i].0 in nodeList
      {
        assert called[|c0| + i] in called;
      }
      traversed := [];
      queue := [];
      calledNodes := [];
      ClearAll(arena, nodeList);
      if callReturns == [] {
        return None;
      }
      return Some(callReturns);
    }
  }
}
