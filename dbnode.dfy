/** `DBNode`: a node that owns database tables, inserts its keyword
    arguments into every one of them, looks up foreign keys in another
    table before doing so, and keeps per table the ids it has inserted
    and not yet announced (`_unsent`) and those it has announced (`_sent`). */
module DBNodes {
  import opened Values
  import opened ProtoNodes
  import opened Tables

  /** One table's state as values: its configuration, columns and update
      times. */
  datatype TabState = TabState(schema: Schema, tab: Columns, lastUpdate: map<Source, Option<int>>)

  ghost predicate StateOk(t: TabState) {
    WellFormed(t.schema) && Fits(t.schema, t.tab)
  }

  /** The state of a table whose configuration and columns agree. */
  type TableView = t: TabState | StateOk(t)
    witness TabState(Schema(Plain, ["id"], "id", None, None, []), map["id" := []], map[])

  // ------------------------------------------------------------ _do_check

  /** The column `_do_check` looks the checked value up in: the
      environment's `check_for_foreign_name`, or `check_for` when that is
      missing or None. */
  function ForeignName(env: map<string, Value>): Value
    requires "check_for" in env
  {
    if Get(env, "check_for_foreign_name") == Nil then env["check_for"] else env["check_for_foreign_name"]
  }

  /** The primary keys of the rows `all` of `t`. */
  function KeysAt(t: TableView, all: seq<nat>): (r: seq<Value>)
    requires forall k :: 0 <= k < |all| ==> all[k] < |t.tab[t.schema.primaryKey]|
    ensures |r| == |all| && forall k :: 0 <= k < |all| ==> r[k] == t.tab[t.schema.primaryKey][all[k]]
  {
    seq(|all|, k requires 0 <= k < |all| => t.tab[t.schema.primaryKey][all[k]])
  }

  /** `in_values[environment["foreign_key"]] = x`: a missing entry is a
      KeyError, which `_do_check` answers with the values unchanged. A key
      that is not a string is a TypeError: an unhashable one at once,
      any other when the values are next passed as `**kwargs`. */
  function StoreForeign(env: map<string, Value>, inValues: map<string, Value>, x: Value): (r: Result<map<string, Value>>)
    ensures "foreign_key" !in env ==> r == Ok(inValues)
    ensures "foreign_key" in env && !env["foreign_key"].Str? ==> r == Err(TypeError)
    ensures "foreign_key" in env && env["foreign_key"].Str? ==> r == Ok(inValues[env["foreign_key"].s := x])
  {
    if "foreign_key" !in env then Ok(inValues)
    else
      match env["foreign_key"]
      case Str(fk) => Ok(inValues[fk := x])
      case _ => Err(TypeError)
  }

  /** `_do_check(in_values)` for a node whose environment is `env` and whose
      `environment["foreign_table"]` is `foreign` (None: not set). When the
      value under `check_for` is found in the foreign table, `foreign_key`
      is set to the primary key of the matching row, or to the list of them
      when several match. A missing environment entry or column gives a
      KeyError, which leaves the values unchanged; an unhashable name is a
      TypeError. */
  function DoCheck(env: map<string, Value>, foreign: Option<TableView>, inValues: map<string, Value>)
    : (r: Result<map<string, Value>>)
    ensures "check_for" !in env ==> r == Ok(inValues)
    ensures "check_for" in env && (env["check_for"].List? || env["check_for"].Dict?) ==> r == Err(TypeError)
    ensures foreign.None? && r.Ok? ==> r.value == inValues
    ensures r.Err? ==> r.error == TypeError
    ensures r.Ok? ==>
      || r.value == inValues
      || (&& "foreign_key" in env && env["foreign_key"].Str? && env["foreign_key"].s in r.value
          && r.value == inValues[env["foreign_key"].s := r.value[env["foreign_key"].s]])
    ensures r.Ok? && r.value != inValues ==>
      (&& "check_for" in env && env["check_for"].Str? && Get(inValues, env["check_for"].s) != Nil
       && foreign.Some? && ForeignName(env).Str? && ForeignName(env).s in foreign.value.tab
       && Found(foreign.value, ForeignName(env).s, Get(inValues, env["check_for"].s),
                r.value[env["foreign_key"].s]))
  {
    if "check_for" !in env then Ok(inValues)
    else
      var cf := env["check_for"];
      if cf.List? || cf.Dict? then Err(TypeError)
      else if !cf.Str? || Get(inValues, cf.s) == Nil || foreign.None? then Ok(inValues)
      else Lookup(env, foreign.value, inValues, Get(inValues, cf.s))
  }

  /** The lookup half of `_do_check`: `v` searched for in the foreign
      table `t`; nothing found, or a column `t` lacks, leaves the
      keyword arguments as they are. */
  function Lookup(env: map<string, Value>, t: TableView, inValues: map<string, Value>, v: Value)
    : (r: Result<map<string, Value>>)
    requires "check_for" in env
    ensures r.Err? ==> r.error == TypeError
    ensures r.Ok? ==>
      || r.value == inValues
      || (&& "foreign_key" in env && env["foreign_key"].Str? && env["foreign_key"].s in r.value
          && r.value == inValues[env["foreign_key"].s := r.value[env["foreign_key"].s]])
    ensures r.Ok? && r.value != inValues ==>
      && ForeignName(env).Str? && ForeignName(env).s in t.tab
      && Found(t, ForeignName(env).s, v, r.value[env["foreign_key"].s])
  {
    match RowIndexOf(t.tab, ForeignName(env), v)
    case Err(e) => if e == KeyError then Ok(inValues) else Err(e)
    case Ok(NoRow) => Ok(inValues)
    case Ok(OneRow(i)) => StoreForeign(env, inValues, t.tab[t.schema.primaryKey][i])
    case Ok(Rows(all)) => StoreForeign(env, inValues, List(KeysAt(t, all)))
  }

  /** `x` answers a lookup of `v` in column `c` of `t`: either the primary
      key of the only row holding `v`, or the list of the primary keys of
      all rows holding it, in row order, when there are several. */
  ghost predicate Found(t: TableView, c: string, v: Value, x: Value)
    requires c in t.tab
  {
    var rows := Indices(t.tab[c], v);
    || (|rows| == 1 && x == t.tab[t.schema.primaryKey][rows[0]])
    || (|rows| >= 2 && x == List(KeysAt(t, rows)))
  }

  /** The check finds the only row holding the checked value and stores its
      key. */
  lemma DoCheckOne(env: map<string, Value>, t: TableView, inValues: map<string, Value>, c: string, fk: string, i: nat)
    requires "check_for" in env && env["check_for"].Str? && ForeignName(env) == Str(c)
    requires Get(env, "foreign_key") == Str(fk) && c in t.tab
    requires Get(inValues, env["check_for"].s) != Nil
    requires i < |t.tab[c]| && t.tab[c][i] == Get(inValues, env["check_for"].s)
    requires forall j :: 0 <= j < |t.tab[c]| && t.tab[c][j] == t.tab[c][i] ==> j == i
    ensures DoCheck(env, Some(t), inValues) == Ok(inValues[fk := t.tab[t.schema.primaryKey][i]])
  {
    var idx := Indices(t.tab[c], t.tab[c][i]);
    AscendingFirstTwo(idx);
    assert i in idx;
    assert forall k :: 0 <= k < |idx| ==> idx[k] == i;
    assert idx == [i];
  }

  /** The check finds several rows holding the checked value and stores
      the list of their keys, in row order. */
  lemma DoCheckSeveral(env: map<string, Value>, t: TableView, inValues: map<string, Value>, c: string, fk: string)
    requires "check_for" in env && env["check_for"].Str? && ForeignName(env) == Str(c)
    requires Get(env, "foreign_key") == Str(fk) && c in t.tab
    requires Get(inValues, env["check_for"].s) != Nil
    requires |Indices(t.tab[c], Get(inValues, env["check_for"].s))| >= 2
    ensures DoCheck(env, Some(t), inValues)
         == Ok(inValues[fk := List(KeysAt(t, Indices(t.tab[c], Get(inValues, env["check_for"].s))))])
  {
    var v := Get(inValues, env["check_for"].s);
    assert RowIndexOf(t.tab, Str(c), v) == Ok(Rows(Indices(t.tab[c], v)));
  }

  /** Whenever the checked value occurs in the foreign table, the check
      stores under `foreign_key` what `Found` describes, and changes
      nothing else. */
  lemma DoCheckFinds(env: map<string, Value>, t: TableView, inValues: map<string, Value>, c: string, fk: string)
    requires "check_for" in env && env["check_for"].Str? && ForeignName(env) == Str(c)
    requires Get(env, "foreign_key") == Str(fk) && c in t.tab
    requires Get(inValues, env["check_for"].s) != Nil
    requires Get(inValues, env["check_for"].s) in t.tab[c]
    ensures DoCheck(env, Some(t), inValues).Ok?
    ensures fk in DoCheck(env, Some(t), inValues).value
    ensures DoCheck(env, Some(t), inValues).value == inValues[fk := DoCheck(env, Some(t), inValues).value[fk]]
    ensures Found(t, c, Get(inValues, env["check_for"].s), DoCheck(env, Some(t), inValues).value[fk])
  {
    var v := Get(inValues, env["check_for"].s);
    var rows := Indices(t.tab[c], v);
    var i :| 0 <= i < |t.tab[c]| && t.tab[c][i] == v;
    assert i in rows;
    if |rows| >= 2 {
      DoCheckSeveral(env, t, inValues, c, fk);
    } else {
      assert rows == [i];
      DoCheckOne(env, t, inValues, c, fk, i);
    }
  }

  /** Checking again after a check changes nothing more, as long as the
      foreign key is not the checked name itself: `insert` runs the check
      once per table. */
  lemma DoCheckTwice(env: map<string, Value>, foreign: Option<TableView>, inValues: map<string, Value>)
    requires DoCheck(env, foreign, inValues).Ok?
    requires "check_for" in env && "foreign_key" in env ==> env["foreign_key"] != env["check_for"]
    ensures DoCheck(env, foreign, DoCheck(env, foreign, inValues).value) == DoCheck(env, foreign, inValues)
  {
    var once := DoCheck(env, foreign, inValues).value;
    if once != inValues {
      var cf := env["check_for"].s;
      var fk := env["foreign_key"].s;
      assert fk != cf;
      assert Get(once, cf) == Get(inValues, cf);
      assert once[fk := once[fk]] == once;
    }
  }

  // --------------------------------------------------------------- insert

  /** The update source of `insert`: the `source` keyword when it is true,
      else the node's name. */
  function SourceOf(kwargs: map<string, Value>, name: string): Source {
    if Truthy(Get(kwargs, "source")) then Key(Get(kwargs, "source")) else Key(Str(name))
  }

  /** The keyword arguments without `source`, when that is not None. */
  function WithoutSource(kwargs: map<string, Value>): (r: map<string, Value>)
    ensures "source" in r <==> "source" in kwargs && kwargs["source"] == Nil
    ensures forall x :: x != "source" ==> (x in r <==> x in kwargs) && (x in r ==> r[x] == kwargs[x])
  {
    if Get(kwargs, "source") != Nil then kwargs - {"source"} else kwargs
  }

  /** What one `insert` is run with besides the tables. */
  datatype Setting = Setting(env: map<string, Value>, foreign: Option<TableView>, endTime: Option<int>, source: Source,
                             opts: map<string, Value>, diameter: Value)

  /** The tables, the unsent ids, the next id of `pid` and the current
      keyword arguments while `insert` runs. */
  datatype Store = Store(tabs: seq<TableView>, unsent: seq<seq<Value>>, nextId: int, kw: map<string, Value>)

  /** A store after some rounds, and whether they all went through. */
  datatype Progress = Progress(st: Store, out: Outcome)

  predicate StoreOk(st: Store) {
    |st.unsent| == |st.tabs|
  }

  /** Round `i` of `insert`: the check, then `modeltables.insert` into
      table `i`; a returned id that is not None joins `_unsent[i]`. */
  ghost function Round(g: Setting, st: Store, i: nat): (r: Progress)
    requires StoreOk(st) && i < |st.tabs|
    ensures StoreOk(r.st) && |r.st.tabs| == |st.tabs|
  {
    match DoCheck(g.env, g.foreign, st.kw)
    case Err(e) => Progress(st, Fail(e))
    case Ok(kw) => Placed(g, st, i, kw)
  }

  /** Keyword arguments named like a positional parameter of
      `modeltables.insert(primary_table, end_time, source, relion_options,
      **kwargs)`: Python rejects such a call with a TypeError. */
  predicate Clashes(kw: map<string, Value>) {
    "primary_table" in kw || "end_time" in kw || "source" in kw || "relion_options" in kw
  }

  /** Keyword arguments named like a parameter of
      `DBNode.insert(self, end_time, extra_options, **kwargs)` itself. */
  predicate ClashesAtCall(kwargs: map<string, Value>) {
    "self" in kwargs || "end_time" in kwargs || "extra_options" in kwargs
  }

  /** The second half of round `i`, with the checked keyword arguments
      `kw`: a keyword that clashes with a parameter of `modeltables.insert`
      is a TypeError before anything is stored; otherwise the row into
      table `i`, and its id, when not None, onto `_unsent[i]`. */
  ghost function Placed(g: Setting, st: Store, i: nat, kw: map<string, Value>): (r: Progress)
    requires StoreOk(st) && i < |st.tabs|
    ensures StoreOk(r.st) && |r.st.tabs| == |st.tabs|
  {
    if Clashes(kw) then Progress(st.(kw := kw), Fail(TypeError))
    else
    var t := st.tabs[i];
    var a := InsertSpec(t.schema, t.tab, t.lastUpdate, st.nextId, g.endTime, g.source, g.opts, g.diameter, kw);
    var q := if a.result.Ok? && a.result.value != Nil then st.unsent[i := st.unsent[i] + [a.result.value]] else st.unsent;
    Progress(Store(st.tabs[i := TabState(t.schema, a.tab, a.lastUpdate)], q, a.nextId, kw),
             if a.result.Err? then Fail(a.result.error) else Pass)
  }

  /** The rounds from round `i` on, stopping at the first that fails. */
  ghost function Run(g: Setting, st: Store, i: nat): (r: Progress)
    requires StoreOk(st) && i <= |st.tabs|
    ensures StoreOk(r.st) && |r.st.tabs| == |st.tabs|
    decreases |st.tabs| - i
  {
    if i == |st.tabs| then Progress(st, Pass)
    else
      var p := Round(g, st, i);
      if p.out.Fail? then p else Run(g, p.st, i + 1)
  }

  /** A round queues at most one id, at its own table, and takes none
      away. */
  lemma RoundQueues(g: Setting, st: Store, i: nat, j: nat)
    requires StoreOk(st) && i < |st.tabs| && j < |st.tabs|
    ensures j != i ==> Round(g, st, i).st.unsent[j] == st.unsent[j]
    ensures st.unsent[j] <= Round(g, st, i).st.unsent[j]
    ensures |Round(g, st, i).st.unsent[j]| <= |st.unsent[j]| + 1
  {
  }

  /** `insert(end_time, extra_options, **kwargs)` as a whole: a keyword
      named like one of its own parameters is a TypeError at the call. */
  ghost function InsertAll(g: Setting, tabs: seq<TableView>, unsent: seq<seq<Value>>, id: int, kwargs: map<string, Value>)
    : (r: Progress)
    requires StoreOk(Store(tabs, unsent, id, kwargs))
    ensures StoreOk(r.st) && |r.st.tabs| == |tabs|
  {
    if ClashesAtCall(kwargs) then Progress(Store(tabs, unsent, id, kwargs), Fail(TypeError))
    else Run(g, Store(tabs, unsent, id, WithoutSource(kwargs)), 0)
  }

  /** A keyword that clashes with a parameter, `source=None` among them,
      makes `insert` fail with a TypeError and leaves every table and
      unsent list as it was. */
  lemma {:induction false} KeywordClashRejected(g: Setting, tabs: seq<TableView>, unsent: seq<seq<Value>>, id: int,
                                                kwargs: map<string, Value>)
    requires StoreOk(Store(tabs, unsent, id, kwargs)) && |tabs| > 0
    requires ClashesAtCall(kwargs) || Clashes(WithoutSource(kwargs))
    ensures InsertAll(g, tabs, unsent, id, kwargs).out == Fail(TypeError)
    ensures InsertAll(g, tabs, unsent, id, kwargs).st.tabs == tabs
    ensures InsertAll(g, tabs, unsent, id, kwargs).st.unsent == unsent
  {
    if !ClashesAtCall(kwargs) {
      var st := Store(tabs, unsent, id, WithoutSource(kwargs));
      match DoCheck(g.env, g.foreign, st.kw)
      case Err(e) =>
      case Ok(kw) =>
        assert st.kw.Keys <= kw.Keys;
        assert Clashes(kw);
    }
  }

  /** `insert(end_time, opts, source=None, ...)`: the `source` keyword is
      kept, so the call into `modeltables.insert` names it twice. */
  lemma NoneSourceRejected(g: Setting, tabs: seq<TableView>, unsent: seq<seq<Value>>, id: int, kwargs: map<string, Value>)
    requires StoreOk(Store(tabs, unsent, id, kwargs)) && |tabs| > 0
    requires "source" in kwargs && kwargs["source"] == Nil
    ensures InsertAll(g, tabs, unsent, id, kwargs).out == Fail(TypeError)
  {
    KeywordClashRejected(g, tabs, unsent, id, kwargs);
  }

  // -------------------------------------------------------------- messages

  /** One message, as a list of one. */
  function Single(m: Result<Value>): (r: Result<seq<Value>>)
    ensures r.Ok? <==> m.Ok?
    ensures r.Ok? ==> r.value == [m.value]
    ensures r.Err? ==> r.error == m.error
  {
    match m
    case Err(e) => Err(e)
    case Ok(v) => Ok([v])
  }

  /** The message for each id of `ids` of table `t`. */
  function PerId(t: TableView, ids: seq<Value>): (rs: seq<Result<seq<Value>>>)
    ensures |rs| == |ids|
  {
    seq(|ids|, k requires 0 <= k < |ids| => Single(MessageFor(t.schema, t.tab, ids[k])))
  }

  /** The messages for the ids `ids` of table `t`, in order; the first
      failure is the answer. */
  function TableMessages(t: TableView, ids: seq<Value>): (r: Result<seq<Value>>)
  {
    Gather(PerId(t, ids))
  }

  /** When every id of a table has a message, there is one per id. */
  lemma TableMessagesCount(t: TableView, ids: seq<Value>)
    ensures TableMessages(t, ids).Ok? ==> |TableMessages(t, ids).value| == |ids|
  {
    var rs := PerId(t, ids);
    var ls := seq(|ids|, k requires 0 <= k < |ids| => [ids[k]]);
    GatherLength(rs, ls);
    OnesLength(ids, ls);
  }

  /** Lists of one element each hold as many elements as there are lists. */
  lemma {:induction false} OnesLength(ids: seq<Value>, ls: seq<seq<Value>>)
    requires |ls| == |ids| && forall k :: 0 <= k < |ls| ==> |ls[k]| == 1
    ensures TotalLength(ls) == |ids|
    decreases |ls|
  {
    if ls != [] {
      OnesLength(ids[..|ids| - 1], ls[..|ls| - 1]);
    }
  }

  /** The messages of each table's unsent ids. */
  function PerTable(tabs: seq<TableView>, unsent: seq<seq<Value>>): (rs: seq<Result<seq<Value>>>)
    requires |unsent| == |tabs|
    ensures |rs| == |tabs|
    ensures forall i :: 0 <= i < |tabs| ==> rs[i] == TableMessages(tabs[i], unsent[i])
  {
    seq(|tabs|, i requires 0 <= i < |tabs| => TableMessages(tabs[i], unsent[i]))
  }

  /** The messages for every table's unsent ids, table by table. */
  function AllMessages(tabs: seq<TableView>, unsent: seq<seq<Value>>): (r: Result<seq<Value>>)
    requires |unsent| == |tabs|
  {
    Gather(PerTable(tabs, unsent))
  }

  /** When every id has a message, there is one per id, table by table. */
  lemma AllMessagesCount(tabs: seq<TableView>, unsent: seq<seq<Value>>)
    requires |unsent| == |tabs|
    ensures AllMessages(tabs, unsent).Ok? ==> |AllMessages(tabs, unsent).value| == TotalLength(unsent)
  {
    var rs := PerTable(tabs, unsent);
    forall k | 0 <= k < |rs|
      ensures rs[k].Ok? ==> |rs[k].value| == |unsent[k]|
    {
      TableMessagesCount(tabs[k], unsent[k]);
    }
    GatherLength(rs, unsent);
  }

  /** The `message` loop as written: `for pid in ids: ... ids.remove(pid)`
      walks a list it shrinks. Python's list iterator reads position `k` in
      round `k`, so after `k` rounds `moved` holds the ids handled and
      `left` what remains of the list. */
  ghost function SweepAsWritten(ids: seq<Value>, k: nat): (r: (seq<Value>, seq<Value>))
    decreases k
  {
    if k == 0 then ([], ids)
    else
      var p := SweepAsWritten(ids, k - 1);
      if k - 1 < |p.1| then (p.0 + [p.1[k - 1]], RemoveFirst(p.1, p.1[k - 1])) else p
  }

  /** With two unsent ids, the loop as written builds a message for the
      first only and leaves the second unsent; rounds past the end change
      nothing. */
  lemma MessageSkipsAsWritten()
    ensures SweepAsWritten([Int(1), Int(2)], 2) == ([Int(1)], [Int(2)])
    ensures SweepAsWritten([Int(1), Int(2)], 3) == ([Int(1)], [Int(2)])
  {
    var ids := [Int(1), Int(2)];
    var p0 := SweepAsWritten(ids, 0);
    assert IndexOf(ids, Int(1)) == 0;
    assert p0.0 + [p0.1[0]] == [Int(1)] && RemoveFirst(p0.1, p0.1[0]) == [Int(2)];
    assert SweepAsWritten(ids, 1) == ([Int(1)], [Int(2)]);
  }

  /** With three, the middle one is skipped. */
  lemma MessageSkipsMiddleAsWritten()
    ensures SweepAsWritten([Int(1), Int(2), Int(3)], 3) == ([Int(1), Int(3)], [Int(2)])
  {
    var ids := [Int(1), Int(2), Int(3)];
    SweepSecondRound();
    var p2 := SweepAsWritten(ids, 2);
    assert p2 == ([Int(1), Int(3)], [Int(2)]);
    assert SweepAsWritten(ids, 3) == p2;
  }

  lemma SweepFirstRound()
    ensures SweepAsWritten([Int(1), Int(2), Int(3)], 1) == ([Int(1)], [Int(2), Int(3)])
  {
    var ids := [Int(1), Int(2), Int(3)];
    var p0 := SweepAsWritten(ids, 0);
    assert IndexOf(ids, Int(1)) == 0;
    assert p0.0 + [p0.1[0]] == [Int(1)] && RemoveFirst(p0.1, p0.1[0]) == [Int(2), Int(3)];
  }

  lemma SweepSecondRound()
    ensures SweepAsWritten([Int(1), Int(2), Int(3)], 2) == ([Int(1), Int(3)], [Int(2)])
  {
    var ids := [Int(1), Int(2), Int(3)];
    SweepFirstRound();
    var p1 := SweepAsWritten(ids, 1);
    assert IndexOf(p1.1, Int(3)) == 1;
    assert p1.0 + [p1.1[1]] == [Int(1), Int(3)] && RemoveFirst(p1.1, p1.1[1]) == [Int(2)];
  }

  /** Removing an id from the front of the list it heads. */
  lemma RemoveHead(s: seq<Value>)
    requires s != []
    ensures RemoveFirst(s, s[0]) == s[1..]
  {
  }

  // ------------------------------------------------------------- the node

  /** The state of table `t`. */
  ghost function ViewOf(t: Table): (v: TableView)
    requires t.Valid()
    reads t
    ensures v == TabState(t.schema, t.tab, t.lastUpdate)
  {
    TabState(t.schema, t.tab, t.lastUpdate)
  }

  /** The state of each table of `ts`, in order. */
  ghost function StatesOf(ts: seq<Table>): (r: seq<TableView>)
    requires forall j :: 0 <= j < |ts| ==> ts[j].Valid()
    reads ts
    ensures |r| == |ts|
    ensures forall j :: 0 <= j < |ts| ==> r[j] == TabState(ts[j].schema, ts[j].tab, ts[j].lastUpdate)
  {
    seq(|ts|, j requires 0 <= j < |ts| && ts[j].Valid() reads ts =>
      var v: TableView := TabState(ts[j].schema, ts[j].tab, ts[j].lastUpdate); v)
  }

  /** What a finished `insert` left, against what its specification says. */
  ghost predicate Done(r: Outcome, tabs: seq<TableView>, unsent: seq<seq<Value>>, nextId: int, p: Progress) {
    r == p.out && tabs == p.st.tabs && unsent == p.st.unsent && nextId == p.st.nextId
  }

  /** The messages for the ids `ids` of table `t`, moving each from the
      unsent list to `sent0` as its message is built; the first failure
      stops the walk with that id still unsent. */
  method AnnounceTable(t: Table, sent0: seq<Value>, ids: seq<Value>) returns (sent: seq<Value>, unsent: seq<Value>, r: Result<seq<Value>>)
    requires t.Valid()
    ensures r == TableMessages(ViewOf(t), ids)
    ensures Moved(sent0, ids, sent, unsent)
    ensures r.Ok? ==> unsent == []
  {
    sent, unsent := sent0, ids;
    var ms := [];
    var k := 0;
    while k < |ids|
      invariant 0 <= k <= |ids| && sent == sent0 + ids[..k] && unsent == ids[k..]
      invariant Gather(PerId(ViewOf(t), ids)[..k]) == Ok(ms)
    {
      var m;
      m, ms := MessageStep(t, ids, k, ms);
      if m.Err? {
        MovedAt(sent0, ids, k);
        return sent, unsent, Err(m.error);
      }
      sent, unsent := MoveHead(sent0, ids, k, sent, unsent);
      k := k + 1;
    }
    MovedAt(sent0, ids, k);
    assert PerId(ViewOf(t), ids)[..k] == PerId(ViewOf(t), ids);
    r := Ok(ms);
  }

  /** After `k` ids are announced, the first `k` have moved. */
  lemma MovedAt(sent0: seq<Value>, ids: seq<Value>, k: nat)
    requires k <= |ids|
    ensures Moved(sent0, ids, sent0 + ids[..k], ids[k..])
    ensures k == |ids| ==> ids[k..] == []
  {
  }

  /** Moving the announced id `ids[k]`, which heads the unsent list, to
      the end of the sent list. */
  method MoveHead(sent0: seq<Value>, ids: seq<Value>, k: nat, sent: seq<Value>, unsent: seq<Value>)
    returns (sent1: seq<Value>, unsent1: seq<Value>)
    requires k < |ids| && sent == sent0 + ids[..k] && unsent == ids[k..]
    ensures sent1 == sent0 + ids[..k + 1] && unsent1 == ids[k + 1..]
  {
    RemoveHead(unsent);
    unsent1 := RemoveFirst(unsent, ids[k]);
    sent1 := sent + [ids[k]];
    assert ids[..k + 1] == ids[..k] + [ids[k]];
  }

  /** The message for `ids[k]`, after those for the ids before it. */
  method MessageStep(t: Table, ids: seq<Value>, k: nat, ms: seq<Value>) returns (m: Result<Value>, ms1: seq<Value>)
    requires t.Valid() && k < |ids| && Gather(PerId(ViewOf(t), ids)[..k]) == Ok(ms)
    ensures m.Err? ==> TableMessages(ViewOf(t), ids) == Err(m.error)
    ensures m.Ok? ==> Gather(PerId(ViewOf(t), ids)[..k + 1]) == Ok(ms1)
  {
    ghost var rs := PerId(ViewOf(t), ids);
    m := t.ConstructMessage(ids[k]);
    assert rs[k] == Single(m);
    GatherStep(rs, k, ms);
    if m.Err? {
      GatherPrefix(rs, k + 1);
      return m, ms;
    }
    ms1 := ms + [m.value];
  }

  /** The lists `s`, `u` are `s0`, `u0` with a front part of `u0` moved
      to the end of `s0`. */
  predicate Moved(s0: seq<Value>, u0: seq<Value>, s: seq<Value>, u: seq<Value>) {
    |u| <= |u0| && u == u0[|u0| - |u|..] && s == s0 + u0[..|u0| - |u|]
  }

  /** Moving ids keeps the sent and unsent ids together as they were. */
  lemma MovedKeeps(s0: seq<Value>, u0: seq<Value>, s: seq<Value>, u: seq<Value>)
    requires Moved(s0, u0, s, u)
    ensures s + u == s0 + u0 && |s| + |u| == |s0| + |u0|
  {
    assert u0 == u0[..|u0| - |u|] + u0[|u0| - |u|..];
  }

  /** The message loop over every table: each table's ids in turn. */
  method Announce(ts: seq<Table>, sent0: seq<seq<Value>>, unsent0: seq<seq<Value>>)
    returns (sent: seq<seq<Value>>, unsent: seq<seq<Value>>, r: Result<seq<Value>>)
    requires |sent0| == |ts| && |unsent0| == |ts| && forall j :: 0 <= j < |ts| ==> ts[j].Valid()
    ensures |sent| == |ts| && |unsent| == |ts|
    ensures r == AllMessages(StatesOf(ts), unsent0)
    ensures forall j :: 0 <= j < |ts| ==> Moved(sent0[j], unsent0[j], sent[j], unsent[j])
    ensures r.Ok? ==> forall j :: 0 <= j < |ts| ==> unsent[j] == [] && sent[j] == sent0[j] + unsent0[j]
  {
    ghost var states := StatesOf(ts);
    sent, unsent := sent0, unsent0;
    assert forall j :: 0 <= j < |ts| ==> unsent0[j][..0] == [] && unsent0[j][0..] == unsent0[j];
    var ms := [];
    var i: nat := 0;
    while i < |ts|
      invariant i <= |ts| && |sent| == |ts| && |unsent| == |ts|
      invariant MessagesSoFar(states, unsent0, i, ms)
      invariant forall j :: 0 <= j < |ts| ==> Moved(sent0[j], unsent0[j], sent[j], unsent[j])
      invariant forall j :: 0 <= j < i ==> unsent[j] == [] && sent[j] == sent0[j] + unsent0[j]
      invariant forall j :: i <= j < |ts| ==> unsent[j] == unsent0[j] && sent[j] == sent0[j]
    {
      var s, u, m;
      s, u, m, ms := AnnounceAt(ts, states, unsent0, i, sent[i], ms);
      sent, unsent := sent[i := s], unsent[i := u];
      if m.Err? {
        return sent, unsent, Err(m.error);
      }
      i := i + 1;
      assert MessagesSoFar(states, unsent0, i, ms);
    }
    assert PerTable(states, unsent0)[..i] == PerTable(states, unsent0);
    r := Ok(ms);
  }

  /** `ms` are the messages of the tables before table `i`. */
  ghost predicate MessagesSoFar(tabs: seq<TableView>, unsent: seq<seq<Value>>, i: nat, ms: seq<Value>)
    requires i <= |tabs| && |unsent| == |tabs|
  {
    Gather(PerTable(tabs, unsent)[..i]) == Ok(ms)
  }

  /** The messages of table `i`, after those of the tables before it. */
  method AnnounceAt(ts: seq<Table>, ghost states: seq<TableView>, unsent0: seq<seq<Value>>, i: nat, s0: seq<Value>,
                    ms: seq<Value>)
    returns (s: seq<Value>, u: seq<Value>, m: Result<seq<Value>>, ms1: seq<Value>)
    requires |unsent0| == |ts| && i < |ts| && forall j :: 0 <= j < |ts| ==> ts[j].Valid()
    requires states == StatesOf(ts) && MessagesSoFar(states, unsent0, i, ms)
    ensures Moved(s0, unsent0[i], s, u)
    ensures m.Err? ==> AllMessages(states, unsent0) == Err(m.error)
    ensures m.Ok? ==> MessagesSoFar(states, unsent0, i + 1, ms1)
    ensures m.Ok? ==> u == [] && s == s0 + unsent0[i]
  {
    ghost var rs := PerTable(states, unsent0);
    assert states[i] == ViewOf(ts[i]);
    s, u, m := AnnounceTable(ts[i], s0, unsent0[i]);
    assert rs[i] == m;
    GatherStep(rs, i, ms);
    if m.Err? {
      GatherPrefix(rs, i + 1);
      return s, u, m, ms;
    }
    ms1 := ms + m.value;
    assert unsent0[i][..|unsent0[i]|] == unsent0[i];
  }

  /** One round of the `insert` loop: the check on the current keyword
      arguments, then the row into table `i`, whose id, when not None,
      joins the unsent list `q[i]`. */
  method InsertRound(ghost st: Store, ts: seq<Table>, i: nat, env: map<string, Value>, f: Option<TableView>,
                     endTime: Option<int>, source: Source, opts: map<string, Value>, diameter: Value,
                     q: seq<seq<Value>>, kw: map<string, Value>, pid: ProcessId)
    returns (q1: seq<seq<Value>>, kw1: map<string, Value>, r: Outcome)
    requires NoDup(ts) && i < |ts| && forall j :: 0 <= j < |ts| ==> ts[j].Valid()
    requires |q| == |ts| && st == Store(StatesOf(ts), q, pid.id, kw)
    modifies ts[i], pid
    ensures forall j :: 0 <= j < |ts| ==> ts[j].Valid()
    ensures Round(Setting(env, f, endTime, source, opts, diameter), st, i)
         == Progress(Store(StatesOf(ts), q1, pid.id, kw1), r)
  {
    var d := DoCheck(env, f, kw);
    if d.Err? {
      return q, kw, Fail(d.error);
    }
    kw1 := d.value;
    q1, r := InsertRow(Store(StatesOf(ts), q, pid.id, kw1), ts, i, Setting(env, f, endTime, source, opts, diameter),
                       q, kw1, pid);
  }

  /** The row of round `i` into table `ts[i]`. */
  method InsertRow(ghost st: Store, ts: seq<Table>, i: nat, g: Setting, q: seq<seq<Value>>,
                   kw: map<string, Value>, pid: ProcessId)
    returns (q1: seq<seq<Value>>, r: Outcome)
    requires NoDup(ts) && i < |ts| && forall j :: 0 <= j < |ts| ==> ts[j].Valid()
    requires |q| == |ts| && st == Store(StatesOf(ts), q, pid.id, kw)
    modifies ts[i], pid
    ensures forall j :: 0 <= j < |ts| ==> ts[j].Valid()
    ensures Placed(g, st, i, kw) == Progress(Store(StatesOf(ts), q1, pid.id, kw), r)
  {
    if Clashes(kw) {
      return q, Fail(TypeError);
    }
    var p := InsertAt(ts, i, g, kw, pid);
    q1 := if p.Ok? && p.value != Nil then q[i := q[i] + [p.value]] else q;
    r := if p.Err? then Fail(p.error) else Pass;
  }

  /** The row inserted into table `i` alone: the other tables keep their
      states. */
  method InsertAt(ts: seq<Table>, i: nat, g: Setting, kw: map<string, Value>, pid: ProcessId) returns (p: Result<Value>)
    requires NoDup(ts) && i < |ts| && forall j :: 0 <= j < |ts| ==> ts[j].Valid()
    modifies ts[i], pid
    ensures forall j :: 0 <= j < |ts| ==> ts[j].Valid()
    ensures StatesOf(ts) == old(StatesOf(ts))[i := TabState(ts[i].schema, ts[i].tab, ts[i].lastUpdate)]
    ensures After(ts[i].tab, ts[i].lastUpdate, pid.id, p)
      == InsertSpec(ts[i].schema, old(ts[i].tab), old(ts[i].lastUpdate), old(pid.id), g.endTime, g.source, g.opts, g.diameter, kw)
  {
    p := ts[i].Insert(g.endTime, g.source, g.opts, g.diameter, kw, pid);
    assert StatesOf(ts) == old(StatesOf(ts))[i := TabState(ts[i].schema, ts[i].tab, ts[i].lastUpdate)];
  }

  /** The `insert` loop over the tables `ts`, starting from the unsent
      lists `q0` and the keyword arguments `kw0`. */
  method InsertTables(ghost st0: Store, ts: seq<Table>, env: map<string, Value>, f: Option<TableView>,
                      endTime: Option<int>, source: Source, opts: map<string, Value>, diameter: Value,
                      q0: seq<seq<Value>>, kw0: map<string, Value>, pid: ProcessId)
    returns (q: seq<seq<Value>>, r: Outcome)
    requires NoDup(ts) && (forall j :: 0 <= j < |ts| ==> ts[j].Valid())
    requires |q0| == |ts| && st0 == Store(StatesOf(ts), q0, pid.id, kw0)
    modifies ts, pid
    ensures forall j :: 0 <= j < |ts| ==> ts[j].Valid()
    ensures Done(r, StatesOf(ts), q, pid.id, Run(Setting(env, f, endTime, source, opts, diameter), st0, 0))
  {
    ghost var g := Setting(env, f, endTime, source, opts, diameter);
    var kw := kw0;
    q := q0;
    var i: nat := 0;
    while i < |ts|
      invariant i <= |ts| && |q| == |ts|
      invariant forall j :: 0 <= j < |ts| ==> ts[j].Valid()
      invariant Run(g, st0, 0) == Run(g, Store(StatesOf(ts), q, pid.id, kw), i)
    {
      q, kw, r := InsertRound(Store(StatesOf(ts), q, pid.id, kw), ts, i, env, f, endTime, source, opts, diameter, q, kw, pid);
      if r.Fail? {
        return;
      }
      i := i + 1;
    }
    r := Pass;
  }

  /** `insert` on the tables `ts` with the unsent lists `q0`: a keyword
      named like a parameter of `insert` itself fails at once, otherwise
      the loop over the tables runs on the keywords without `source`. */
  method InsertCall(ghost tabs0: seq<TableView>, ghost id0: int, ts: seq<Table>, env: map<string, Value>,
                    f: Option<TableView>, endTime: Option<int>, source: Source, opts: map<string, Value>,
                    diameter: Value, q0: seq<seq<Value>>, kwargs: map<string, Value>, pid: ProcessId)
    returns (q: seq<seq<Value>>, r: Outcome)
    requires NoDup(ts) && (forall j :: 0 <= j < |ts| ==> ts[j].Valid())
    requires |q0| == |ts| && tabs0 == StatesOf(ts) && id0 == pid.id
    modifies ts, pid
    ensures forall j :: 0 <= j < |ts| ==> ts[j].Valid()
    ensures Done(r, StatesOf(ts), q, pid.id, InsertAll(Setting(env, f, endTime, source, opts, diameter), tabs0, q0, id0, kwargs))
  {
    if ClashesAtCall(kwargs) {
      return q0, Fail(TypeError);
    }
    var kw := WithoutSource(kwargs);
    q, r := InsertTables(Store(tabs0, q0, id0, kw), ts, env, f, endTime, source, opts, diameter, q0, kw, pid);
  }

  class DBNode {
    const arena: Arena
    const id: nat
    const tables: seq<Table>
    var sent: seq<seq<Value>>
    var unsent: seq<seq<Value>>
    /** `environment["foreign_table"]`, when it is set. */
    var foreignTable: Option<Table>

    ghost function Foreign(): set<Table>
      reads this
    {
      if foreignTable.Some? then {foreignTable.value} else {}
    }

    ghost predicate Valid()
      reads this, arena, tables, Foreign()
    {
      && arena.Valid() && id < |arena.names|
      && |sent| == |tables| && |unsent| == |tables|
      && NoDup(tables) && (forall j :: 0 <= j < |tables| ==> tables[j].Valid())
      && (foreignTable.Some? ==> foreignTable.value.Valid() && foreignTable.value !in tables)
    }

    /** The foreign table's state, when there is one. */
    function ForeignState(): (r: Option<TableView>)
      reads this, if foreignTable.Some? then {foreignTable.value} else {}
      requires foreignTable.Some? ==> foreignTable.value.Valid()
      ensures r.Some? <==> foreignTable.Some?
      ensures r.Some? ==> r.value == TabState(foreignTable.value.schema, foreignTable.value.tab, foreignTable.value.lastUpdate)
    {
      match foreignTable
      case None => None
      case Some(t) =>
        var v: TableView := TabState(t.schema, t.tab, t.lastUpdate);
        Some(v)
    }

    /** `DBNode(name, tables, **kwargs)`: a new node whose tables record
        the node's name as an update source at time 0, with one empty sent
        and one empty unsent list per table. */
    constructor (a: Arena, name: string, ts: seq<Table>, kwargs: map<string, Value>)
      requires a.Valid() && NoDup(ts) && forall j :: 0 <= j < |ts| ==> ts[j].Valid()
      modifies a, ts
      ensures Valid() && arena == a && tables == ts && id == old(|a.names|)
      ensures a.names == old(a.names) + [name] && a.attributes == old(a.attributes) + [kwargs]
      ensures a.envs == old(a.envs) + [map[]]
      ensures forall j :: 0 <= j < |ts| ==>
        ts[j].tab == old(ts[j].tab) && ts[j].lastUpdate == old(ts[j].lastUpdate)[Key(Str(name)) := Some(0)]
      ensures |sent| == |ts| && |unsent| == |ts|
      ensures forall j :: 0 <= j < |ts| ==> sent[j] == [] && unsent[j] == []
      ensures foreignTable == None
    {
      var n := a.NewNode(name, kwargs);
      arena := a;
      id := n;
      tables := ts;
      sent := seq(|ts|, _ => []);
      unsent := seq(|ts|, _ => []);
      foreignTable := None;
      new;
      var i := 0;
      while i < |ts|
        modifies ts
        invariant 0 <= i <= |ts|
        invariant forall j :: 0 <= j < |ts| ==> ts[j].tab == old(ts[j].tab) && ts[j].Valid()
        invariant forall j :: 0 <= j < |ts| ==>
          ts[j].lastUpdate == if j < i then old(ts[j].lastUpdate)[Key(Str(name)) := Some(0)] else old(ts[j].lastUpdate)
      {
        ts[i].lastUpdate := ts[i].lastUpdate[Key(Str(name)) := Some(0)];
        i := i + 1;
      }
    }

    /** `node.environment["foreign_table"] = t`: names the table whose
        primary keys `_do_check` stores under `foreign_key`. */
    method SetForeignTable(t: Table)
      requires Valid() && t.Valid() && t !in tables
      modifies this
      ensures Valid() && foreignTable == Some(t)
      ensures sent == old(sent) && unsent == old(unsent)
    {
      foreignTable := Some(t);
    }

    /** `bool(node)`: whether the node has tables. */
    predicate Bool()
      ensures Bool() <==> |tables| > 0
    {
      tables != []
    }

    /** `update_times(source)`: each table's update time for `source`, in
        table order; a source some table does not know is a KeyError and an
        unhashable one a TypeError. */
    function UpdateTimes(source: Value): (r: Result<seq<Option<int>>>)
      reads tables
      ensures (source.List? || source.Dict?) && tables != [] ==> r == Err(TypeError)
      ensures r.Ok? <==> tables == [] || (!source.List? && !source.Dict? && forall j :: 0 <= j < |tables| ==> Key(source) in tables[j].lastUpdate)
      ensures r.Ok? ==> |r.value| == |tables|
      ensures r.Ok? ==> forall j :: 0 <= j < |tables| ==> r.value[j] == tables[j].lastUpdate[Key(source)]
    {
      if tables == [] then Ok([])
      else if source.List? || source.Dict? then Err(TypeError)
      else if exists j :: 0 <= j < |tables| && Key(source) !in tables[j].lastUpdate then Err(KeyError)
      else Ok(seq(|tables|, j requires 0 <= j < |tables| && Key(source) in tables[j].lastUpdate reads tables =>
                  tables[j].lastUpdate[Key(source)]))
    }

    /** What `insert(end_time, extra_options, **kwargs)` does from the
        current state, with `nextId` the next id of the counter. */
    ghost function Planned(endTime: Option<int>, opts: map<string, Value>, diameter: Value, kwargs: map<string, Value>,
                           nextId: int): (p: Progress)
      reads this, arena, tables, Foreign()
      requires Valid()
      ensures StoreOk(p.st) && |p.st.tabs| == |tables|
    {
      var g := Setting(arena.envs[id], ForeignState(), endTime, SourceOf(kwargs, arena.names[id]), opts, diameter);
      InsertAll(g, StatesOf(tables), unsent, nextId, kwargs)
    }

    /** `insert(end_time, extra_options, **kwargs)`: with `source` taken out
        of the keyword arguments, every table in turn gets the check and
        the row; an id that comes back joins the table's unsent list. An
        error stops the loop where it is raised. */
    method Insert(endTime: Option<int>, opts: map<string, Value>, diameter: Value, kwargs: map<string, Value>,
                  pid: ProcessId) returns (r: Outcome, ghost p: Progress)
      requires Valid()
      modifies this, tables, pid
      ensures p == old(InsertAll(Setting(arena.envs[id], ForeignState(), endTime, SourceOf(kwargs, arena.names[id]), opts, diameter),
                                 StatesOf(tables), unsent, pid.id, kwargs))
      ensures Valid() && sent == old(sent) && foreignTable == old(foreignTable)
      ensures Done(r, StatesOf(tables), unsent, pid.id, p)
    {
      p := InsertAll(Setting(arena.envs[id], ForeignState(), endTime, SourceOf(kwargs, arena.names[id]), opts, diameter),
                     StatesOf(tables), unsent, pid.id, kwargs);
      var q, r0 := InsertCall(StatesOf(tables), pid.id, tables, arena.envs[id], ForeignState(),
                              endTime, SourceOf(kwargs, arena.names[id]), opts, diameter, unsent, kwargs, pid);
      unsent, r := q, r0;
    }

    /** `message(constructor)`: no constructor, no messages and nothing
        moved; otherwise the message for every unsent id, table by table,
        each id moving to the table's sent list as its message is built.
        This is the walk the loop is evidently meant to make; the loop as
        written is `SweepAsWritten`. */
    method Message(construct: bool) returns (r: Result<seq<Value>>)
      requires Valid()
      modifies this
      ensures Valid() && foreignTable == old(foreignTable)
      ensures !construct ==> r == Ok([]) && sent == old(sent) && unsent == old(unsent)
      ensures construct ==> r == AllMessages(StatesOf(tables), old(unsent))
      ensures forall j :: 0 <= j < |tables| ==> Moved(old(sent[j]), old(unsent[j]), sent[j], unsent[j])
      ensures construct && r.Ok? ==> forall j :: 0 <= j < |tables| ==> unsent[j] == [] && sent[j] == old(sent[j]) + old(unsent[j])
    {
      if !construct {
        return Ok([]);
      }
      sent, unsent, r := Announce(tables, sent, unsent);
    }

    /** `__call__(**kwargs)`: `extra_options`, `end_time` and
        `message_constructor` are taken out of the keyword arguments, the
        rest is inserted, the node marks itself completed in its successors
        and the messages for the unsent ids are the answer. */
    method Call(kwargs: map<string, Value>, opts: map<string, Value>, diameter: Value, construct: bool, pid: ProcessId)
      returns (r: Result<seq<Value>>, ghost p: Progress)
      requires Valid() && (Get(kwargs, "end_time").Nil? || Get(kwargs, "end_time").Int?)
      modifies this, tables, pid, arena
      ensures p == old(Planned(EndTime(kwargs), opts, diameter, CallArgs(kwargs), pid.id))
      ensures Valid() && foreignTable == old(foreignTable)
      ensures StatesOf(tables) == p.st.tabs && pid.id == p.st.nextId && |arena.completed| == old(|arena.completed|)
      ensures arena.names == old(arena.names) && arena.outs == old(arena.outs) && arena.envs == old(arena.envs)
      ensures p.out.Fail? ==>
        r == Err(p.out.error) && sent == old(sent) && unsent == p.st.unsent && arena.completed == old(arena.completed)
      ensures p.out.Pass? ==> forall x :: 0 <= x < |arena.completed| ==>
        arena.completed[x] == old(arena.completed[x]) + (if x in old(arena.outs[id]) then [id] else [])
      ensures p.out.Pass? ==> r == if construct then AllMessages(p.st.tabs, p.st.unsent) else Ok([])
      ensures p.out.Pass? ==> forall j :: 0 <= j < |tables| ==> Moved(old(sent[j]), p.st.unsent[j], sent[j], unsent[j])
      ensures p.out.Pass? && construct && r.Ok? ==>
        forall j :: 0 <= j < |tables| ==> unsent[j] == [] && sent[j] == old(sent[j]) + p.st.unsent[j]
    {
      var ins;
      ins, p := Insert(EndTime(kwargs), opts, diameter, CallArgs(kwargs), pid);
      if ins.Fail? {
        return Err(ins.error), p;
      }
      r := Finish(construct);
    }

    /** The end of a `__call__` whose insert went through: the completion
        marking, then the messages. */
    method Finish(construct: bool) returns (r: Result<seq<Value>>)
      requires Valid()
      modifies this, arena
      ensures Valid() && foreignTable == old(foreignTable)
      ensures StatesOf(tables) == old(StatesOf(tables)) && |arena.completed| == old(|arena.completed|)
      ensures arena.names == old(arena.names) && arena.outs == old(arena.outs) && arena.envs == old(arena.envs)
      ensures forall x :: 0 <= x < |arena.completed| ==>
        arena.completed[x] == old(arena.completed[x]) + (if x in old(arena.outs[id]) then [id] else [])
      ensures r == if construct then AllMessages(StatesOf(tables), old(unsent)) else Ok([])
      ensures forall j :: 0 <= j < |tables| ==> Moved(old(sent[j]), old(unsent[j]), sent[j], unsent[j])
      ensures construct && r.Ok? ==>
        forall j :: 0 <= j < |tables| ==> unsent[j] == [] && sent[j] == old(sent[j]) + old(unsent[j])
    {
      arena.Call(id);
      r := Message(construct);
    }
  }

  /** The `end_time` keyword argument. */
  function EndTime(kwargs: map<string, Value>): (t: Option<int>)
    ensures Get(kwargs, "end_time").Int? <==> t.Some?
    ensures t.Some? ==> t.value == Get(kwargs, "end_time").i
  {
    match Get(kwargs, "end_time")
    case Int(i) => Some(i)
    case _ => None
  }

  /** The keyword arguments `__call__` passes on to `insert`. */
  function CallArgs(kwargs: map<string, Value>): (r: map<string, Value>)
    ensures forall x :: x in r <==> x in kwargs && x != "extra_options" && x != "end_time" && x != "message_constructor"
    ensures forall x :: x in r ==> r[x] == kwargs[x]
  {
    kwargs - {"extra_options", "end_time", "message_constructor"}
  }
}
