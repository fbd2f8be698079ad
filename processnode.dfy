/** `ProcessNode`: a node for one RELION job directory. It keeps the
    job's path, and its `func` collects the job's results into database
    form once per end time stamp. Time stamps are modelled as the ints
    `datetime.timestamp` turns them into. */
module ProcessNodes {
  import opened Values
  import opened ProtoNodes

  // ------------------------------------------------------------ paths

  /** The components of a split path that name something: `pathlib` drops
      empty components (from repeated or trailing slashes) and `.`. */
  function Named(ps: seq<string>): (r: seq<string>)
    ensures forall x :: x in r ==> x in ps && x != "" && x != "."
    ensures forall x :: x in ps && x != "" && x != "." ==> x in r
  {
    if ps == [] then []
    else (if ps[0] == "" || ps[0] == "." then [] else [ps[0]]) + Named(ps[1..])
  }

  lemma {:induction false} NamedAppend(a: seq<string>, b: seq<string>)
    ensures Named(a + b) == Named(a) + Named(b)
    decreases |a|
  {
    if a != [] {
      assert (a + b)[1..] == a[1..] + b;
      NamedAppend(a[1..], b);
    } else {
      assert a + b == b;
    }
  }

  lemma {:induction false} NamedKeeps(ps: seq<string>)
    requires forall x :: x in ps ==> x != "" && x != "."
    ensures Named(ps) == ps
    decreases |ps|
  {
    if ps != [] {
      assert ps[0] in ps;
      assert forall x :: x in ps[1..] ==> x in ps;
      NamedKeeps(ps[1..]);
    }
  }

  /** The components of `PurePosixPath(p)` after its root. */
  function Parts(p: string): (r: seq<string>)
    ensures forall x :: x in r ==> x != "" && x != "." && '/' !in x
  {
    SplitPiecesFree(p, '/');
    Named(Split(p, '/'))
  }

  /** The root of `PurePosixPath(p)`: POSIX keeps exactly two leading
      slashes, and any other number of them is one root slash. */
  function Root(p: string): (r: string)
    ensures r == "" <==> p == [] || p[0] != '/'
    ensures r == "" || r == "/" || r == "//"
  {
    if |p| >= 2 && p[0] == '/' && p[1] == '/' && (|p| == 2 || p[2] != '/') then "//"
    else if |p| >= 1 && p[0] == '/' then "/"
    else ""
  }

  /** `str(PurePosixPath(p))`: the root followed by the named components
      joined by `/`, or `.` when there is neither. */
  function PosixStr(p: string): (r: string)
    ensures r != []
    ensures r == "." <==> Parts(p) == [] && Root(p) == ""
  {
    var parts := Parts(p);
    if parts == [] then (if Root(p) == "" then "." else Root(p))
    else
      assert parts[0] in parts;
      Root(p) + Join(parts, '/')
  }

  /** Joining one more part appends the separator and that part. */
  lemma {:induction false} JoinAppend(ps: seq<string>, q: string, sep: char)
    requires |ps| >= 1
    ensures Join(ps + [q], sep) == Join(ps, sep) + [sep] + q
    decreases |ps|
  {
    if |ps| > 1 {
      assert (ps + [q])[1..] == ps[1..] + [q];
      JoinAppend(ps[1..], q, sep);
    } else {
      assert ps + [q] == [ps[0], q];
    }
  }

  /** A leading separator adds an empty first piece. */
  lemma SplitLead(s: string, sep: char)
    ensures Split([sep] + s, sep) == [""] + Split(s, sep)
  {
    var ps := Split(s, sep);
    JoinSplit(s, sep);
    assert ([""] + ps)[1..] == ps;
    assert [sep] + s == Join([""] + ps, sep);
    SplitPiecesFree(s, sep);
    SplitJoin([""] + ps, sep);
  }

  /** A trailing separator adds an empty last piece. */
  lemma SplitTrail(s: string, sep: char)
    ensures Split(s + [sep], sep) == Split(s, sep) + [""]
  {
    var ps := Split(s, sep);
    JoinSplit(s, sep);
    JoinAppend(ps, "", sep);
    assert s + [sep] == Join(ps + [""], sep);
    SplitPiecesFree(s, sep);
    SplitJoin(ps + [""], sep);
  }

  /** The first character of a join is that of its first part. */
  lemma JoinHead(parts: seq<string>, sep: char)
    requires |parts| >= 1 && parts[0] != []
    ensures |Join(parts, sep)| >= 1 && Join(parts, sep)[0] == parts[0][0]
  {
  }

  /** The three paths without components print as themselves. */
  lemma PosixStrBare(q: string)
    requires q == "." || q == "/" || q == "//"
    ensures PosixStr(q) == q
  {
    if q == "." {
      assert Split(q, '/') == [q];
      assert Named([q]) == [];
      assert q[0] != '/';
    } else {
      var one := ['/'] + "";
      assert Split(one, '/') == ["", ""] by {
        SplitLead("", '/');
        assert Split("", '/') == [""];
      }
      if q == "//" {
        assert q == ['/'] + one;
        SplitLead(one, '/');
        assert Named(["", "", ""]) == [];
        assert |q| == 2 && q[0] == '/' && q[1] == '/';
      } else {
        assert q == one;
        assert Named(["", ""]) == [];
      }
    }
  }

  /** Components that name something, joined by `/`, split back into
      themselves and do not start with a slash. */
  lemma JoinedParts(parts: seq<string>)
    requires |parts| >= 1 && forall x :: x in parts ==> x != "" && x != "." && '/' !in x
    ensures Join(parts, '/') != [] && Join(parts, '/')[0] != '/'
    ensures Named(Split(Join(parts, '/'), '/')) == parts
  {
    assert parts[0] in parts;
    JoinHead(parts, '/');
    SplitJoin(parts, '/');
    NamedKeeps(parts);
  }

  /** One root slash before a relative path adds one empty piece. */
  lemma SlashParts(j: string)
    requires j != [] && j[0] != '/'
    ensures Root(['/'] + j) == "/"
    ensures Named(Split(['/'] + j, '/')) == Named(Split(j, '/'))
  {
    assert (['/'] + j)[1] == j[0];
    SplitLead(j, '/');
    NamedAppend([""], Split(j, '/'));
  }

  /** Two root slashes before a relative path add two empty pieces. */
  lemma DoubleSlashParts(j: string)
    requires j != [] && j[0] != '/'
    ensures Root(['/', '/'] + j) == "//"
    ensures Named(Split(['/', '/'] + j, '/')) == Named(Split(j, '/'))
  {
    var n := ['/', '/'] + j;
    assert n[2] == j[0];
    assert n == ['/'] + (['/'] + j);
    SplitLead(['/'] + j, '/');
    SlashParts(j);
    NamedAppend([""], Split(['/'] + j, '/'));
  }

  /** A root followed by joined components has that root and those
      components again. */
  lemma RootedParts(root: string, parts: seq<string>)
    requires root == "" || root == "/" || root == "//"
    requires |parts| >= 1 && forall x :: x in parts ==> x != "" && x != "." && '/' !in x
    ensures Root(root + Join(parts, '/')) == root
    ensures Parts(root + Join(parts, '/')) == parts
  {
    var j := Join(parts, '/');
    JoinedParts(parts);
    if root == "/" {
      assert root + j == ['/'] + j;
      SlashParts(j);
    } else if root == "//" {
      assert root + j == ['/', '/'] + j;
      DoubleSlashParts(j);
    } else {
      assert root + j == j;
    }
  }

  /** Normalising is idempotent: `PurePosixPath(str(PurePosixPath(p)))`
      prints as `PurePosixPath(p)` does. */
  lemma PosixStrIdempotent(p: string)
    ensures PosixStr(PosixStr(p)) == PosixStr(p)
  {
    if Parts(p) == [] {
      PosixStrBare(PosixStr(p));
    } else {
      RootedParts(Root(p), Parts(p));
    }
  }

  /** A trailing slash makes no difference to a path with some
      non-slash character. */
  lemma PosixStrTrailing(p: string, i: nat)
    requires i < |p| && p[i] != '/'
    ensures PosixStr(p + ['/']) == PosixStr(p)
  {
    SplitTrail(p, '/');
    NamedAppend(Split(p, '/'), [""]);
    assert Parts(p + ['/']) == Parts(p);
    var q := p + ['/'];
    assert q[0] == p[0];
    if |p| >= 2 {
      assert q[1] == p[1];
    }
    if |p| >= 3 {
      assert q[2] == p[2];
    }
    assert Root(q) == Root(p);
  }

  /** A job directory `dir/job/` given with a trailing slash prints as
      `dir/job`, without it. */
  lemma PosixStrJobDir(dir: string, job: string)
    requires dir != "" && dir != "." && '/' !in dir
    requires job != "" && job != "." && '/' !in job
    ensures PosixStr(dir + ['/'] + job + ['/']) == dir + ['/'] + job
  {
    var q := dir + ['/'] + job;
    assert PosixStr(q) == q by {
      var parts := [dir, job];
      assert Join(parts, '/') == q;
      RootedParts("", parts);
      assert "" + q == q;
    }
    PosixStrTrailing(q, 0);
  }

  /** What `_path` holds: the `PurePosixPath` the constructor builds from
      its argument, or the plain string `change_name` stores. */
  datatype PathValue = Posix(arg: string) | Plain(s: string)
  {
    /** `str(_path)`. */
    function Str(): string {
      match this
      case Posix(a) => PosixStr(a)
      case Plain(s) => s
    }
  }

  /** `_path == other._path`: two `PurePosixPath`s are equal when they
      have the same root and components, that is when they print alike;
      two strings when they are equal; a path never equals a string. */
  predicate SamePath(a: PathValue, b: PathValue) {
    match (a, b)
    case (Posix(x), Posix(y)) => PosixStr(x) == PosixStr(y)
    case (Plain(x), Plain(y)) => x == y
    case _ => false
  }

  /** The five attributes the constructor always sets. */
  const TimeKeys: seq<string> := ["status", "start_time_stamp", "end_time_stamp", "start_time", "end_time"]

  /** The attributes of `ProcessNode(path, **kwargs)`: the keyword
      arguments, with each of `TimeKeys` set to its keyword argument or
      None. */
  function InitialAttributes(kwargs: map<string, Value>): (r: map<string, Value>)
    ensures forall k :: k in r <==> k in kwargs || k in TimeKeys
    ensures forall k :: k in r ==> r[k] == Get(kwargs, k)
  {
    kwargs["status" := Get(kwargs, "status")]["start_time_stamp" := Get(kwargs, "start_time_stamp")]
          ["end_time_stamp" := Get(kwargs, "end_time_stamp")]["start_time" := Get(kwargs, "start_time")]
          ["end_time" := Get(kwargs, "end_time")]
  }

  /** `datetime.timestamp(x)`: a time stamp is an int here; anything
      else is a TypeError. */
  function Timestamp(v: Value): (r: Result<int>)
    ensures r.Ok? <==> v.Int?
    ensures r.Ok? ==> r.value == v.i
    ensures r.Err? ==> r.error == TypeError
  {
    match v
    case Int(i) => Ok(i)
    case _ => Err(TypeError)
  }

  /** Whether results last collected at `last` are older than `t`: never
      collected counts as older; a value that is not a time stamp cannot
      be compared. */
  function Stale(last: Value, t: int): (r: Result<bool>)
    ensures last.Nil? ==> r == Ok(true)
    ensures last.Int? ==> r == Ok(last.i < t)
    ensures !last.Nil? && !last.Int? ==> r == Err(TypeError)
  {
    match last
    case Nil => Ok(true)
    case Int(i) => Ok(i < t)
    case _ => Err(TypeError)
  }

  /** What `func` leaves in the node's attributes and environment, and
      what it answers. */
  datatype Collection = Collection(attrs: map<string, Value>, env: map<string, Value>, answer: Result<Value>)

  /** The job's results in database form: `unpack(result, job)` is
      `result.db_unpack(result[job])`, and may fail. */
  type Unpack = (Value, Value) -> Result<Value>

  /** `func()` from the attributes `attrs` and the environment `env`:
      no result object answers None, no end time stamp answers `[]`;
      otherwise the end time goes into the environment, and the results
      are collected only when they were last collected before the end
      time stamp, which then becomes the collection time; when they are
      up to date the answer is `{}`. */
  function Collect(attrs: map<string, Value>, env: map<string, Value>, unpack: Unpack): (c: Collection)
  {
    if Get(attrs, "result").Nil? then Collection(attrs, env, Ok(Nil))
    else if Get(attrs, "end_time_stamp").Nil? then Collection(attrs, env, Ok(List([])))
    else
      match Timestamp(attrs["end_time_stamp"])
      case Err(e) => Collection(attrs, env, Err(e))
      case Ok(t) =>
        var env1 := env["end_time" := Int(t)];
        match Stale(Get(attrs, "results_last_collected"), t)
        case Err(e) => Collection(attrs, env1, Err(e))
        case Ok(stale) =>
          if !stale then Collection(attrs, env1, Ok(Dict(map[])))
          else
            var attrs1 := attrs["results_last_collected" := Int(t)];
            if "job" !in attrs then Collection(attrs1, env1, Err(KeyError))
            else Collection(attrs1, env1, unpack(attrs["result"], attrs["job"]))
  }

  /** Without a result object, or without an end time stamp, nothing
      changes; the answers are None and `[]`. */
  lemma CollectNothing(attrs: map<string, Value>, env: map<string, Value>, unpack: Unpack)
    ensures Get(attrs, "result").Nil? ==> Collect(attrs, env, unpack) == Collection(attrs, env, Ok(Nil))
    ensures !Get(attrs, "result").Nil? && Get(attrs, "end_time_stamp").Nil? ==>
      Collect(attrs, env, unpack) == Collection(attrs, env, Ok(List([])))
  {
  }

  /** With both, the environment's `end_time` becomes the end time stamp,
      and the results are unpacked, and the end time stamp recorded as
      their collection time, exactly when they were never collected or
      collected before it; otherwise the answer is `{}`. */
  lemma CollectWhenStale(attrs: map<string, Value>, env: map<string, Value>, unpack: Unpack, t: int)
    requires !Get(attrs, "result").Nil? && Get(attrs, "end_time_stamp") == Int(t) && "job" in attrs
    requires Get(attrs, "results_last_collected").Nil? || Get(attrs, "results_last_collected").Int?
    ensures Collect(attrs, env, unpack).env == env["end_time" := Int(t)]
    ensures Get(attrs, "results_last_collected").Nil? || Get(attrs, "results_last_collected").i < t ==>
      && Collect(attrs, env, unpack).attrs == attrs["results_last_collected" := Int(t)]
      && Collect(attrs, env, unpack).answer == unpack(attrs["result"], attrs["job"])
    ensures Get(attrs, "results_last_collected").Int? && Get(attrs, "results_last_collected").i >= t ==>
      Collect(attrs, env, unpack) == Collection(attrs, env["end_time" := Int(t)], Ok(Dict(map[])))
  {
  }

  /** `results_last_collected` never goes back in time, and `func`
      changes no other attribute. */
  lemma CollectMonotone(attrs: map<string, Value>, env: map<string, Value>, unpack: Unpack)
    ensures var c := Collect(attrs, env, unpack);
      forall k :: k in c.attrs <==> k in attrs || (k == "results_last_collected" && c.attrs != attrs)
    ensures var c := Collect(attrs, env, unpack);
      forall k :: k in attrs && k != "results_last_collected" ==> c.attrs[k] == attrs[k]
    ensures var c := Collect(attrs, env, unpack);
      Get(attrs, "results_last_collected").Int? ==>
        Get(c.attrs, "results_last_collected").Int? &&
        Get(c.attrs, "results_last_collected").i >= Get(attrs, "results_last_collected").i
  {
  }

  /** Collecting is idempotent: a second `func` with nothing changed in
      between changes nothing more, and when the first got as far as
      comparing the time stamps the second answers `{}`. */
  lemma {:induction false} CollectTwice(attrs: map<string, Value>, env: map<string, Value>, unpack: Unpack)
    ensures var c := Collect(attrs, env, unpack);
      Collect(c.attrs, c.env, unpack).attrs == c.attrs && Collect(c.attrs, c.env, unpack).env == c.env
    ensures var c := Collect(attrs, env, unpack);
      !Get(attrs, "result").Nil? && Get(attrs, "end_time_stamp").Int? &&
      Stale(Get(attrs, "results_last_collected"), Get(attrs, "end_time_stamp").i).Ok? ==>
        Collect(c.attrs, c.env, unpack).answer == Ok(Dict(map[]))
  {
    var c := Collect(attrs, env, unpack);
    if !Get(attrs, "result").Nil? && Get(attrs, "end_time_stamp").Int? {
      var t := Get(attrs, "end_time_stamp").i;
      assert Get(c.attrs, "end_time_stamp") == Int(t) && !Get(c.attrs, "result").Nil?;
      var s := Stale(Get(attrs, "results_last_collected"), t);
      if s == Ok(true) {
        assert Get(c.attrs, "results_last_collected") == Int(t);
      }
    }
  }

  /** The elements of `s`. */
  ghost function Elements(s: seq<nat>): set<nat> {
    set x | x in s
  }

  /** Elements that occur once each: as many distinct elements as
      entries. */
  lemma {:induction false} DistinctCount(s: seq<nat>)
    requires NoDup(s)
    ensures |Elements(s)| == |s|
    decreases |s|
  {
    if s != [] {
      var n := |s| - 1;
      assert NoDup(s[..n]);
      DistinctCount(s[..n]);
      assert s[n] !in Elements(s[..n]);
      assert Elements(s) == Elements(s[..n]) + {s[n]};
    } else {
      assert Elements(s) == {};
    }
  }

  /** Two duplicate-free lists of the same length, the first contained
      in the second, hold the same elements. */
  lemma SameElements(a: seq<nat>, b: seq<nat>)
    requires NoDup(a) && NoDup(b) && |a| == |b| && forall x :: x in a ==> x in b
    ensures forall x :: x in b ==> x in a
  {
    DistinctCount(a);
    DistinctCount(b);
    var sa, sb := Elements(a), Elements(b);
    assert sa <= sb;
    assert sb == sa + (sb - sa);
    assert sb - sa == {};
    forall x | x in b
      ensures x in a
    {
      assert x in sb;
    }
  }

  /** Whom a node is compared with: another process node, or any other
      object through its string form `str(other)`. */
  datatype Other = Process(node: ProcessNode) | Printed(s: string)

  class ProcessNode {
    const arena: Arena
    const id: nat
    /** `_path`. */
    var path: PathValue

    ghost predicate Valid()
      reads this, arena
    {
      arena.Valid() && arena.IsNode(id)
    }

    /** `ProcessNode(path, **kwargs)`: a node named by the path as given,
        holding it normalised as a `PurePosixPath`, with the keyword
        arguments and the five time attributes. */
    constructor (a: Arena, p: string, kwargs: map<string, Value>)
      requires a.Valid()
      modifies a
      ensures Valid() && arena == a && id == old(|a.names|) && path == Posix(p)
      ensures a.names == old(a.names) + [p] && a.attributes == old(a.attributes) + [InitialAttributes(kwargs)]
      ensures a.outs == old(a.outs) + [[]] && a.envs == old(a.envs) + [map[]]
    {
      path := Posix(p);
      var n := a.NewNode(p, kwargs);
      a.attributes := a.attributes[n := InitialAttributes(kwargs)];
      arena := a;
      id := n;
    }

    /** `self == other`: with another process node, the same path and
        the same successors; with anything else, the printed path against
        the other's string form, which is not normalised. */
    predicate Eq(other: Other)
      requires Valid() && (other.Process? ==> other.node.Valid() && other.node.arena == arena)
      reads this, arena, if other.Process? then {other.node} else {}
    {
      match other
      case Process(o) =>
        SamePath(path, o.path) && |arena.outs[id]| == |arena.outs[o.id]| &&
        forall n :: n in arena.outs[id] ==> n in arena.outs[o.id]
      case Printed(s) => path.Str() == s
    }

    /** A node equals itself, and equality between process nodes is
        symmetric, because successor lists hold no duplicates. */
    lemma EqSymmetric(o: ProcessNode)
      requires Valid() && o.Valid() && o.arena == arena
      ensures Eq(Process(this))
      ensures Eq(Process(o)) <==> o.Eq(Process(this))
    {
      if Eq(Process(o)) {
        SameElements(arena.outs[id], arena.outs[o.id]);
      }
      if o.Eq(Process(this)) {
        SameElements(arena.outs[o.id], arena.outs[id]);
      }
    }

    /** A node made from a job directory written with a trailing slash
        equals the directory written without it, since `str(other)` is
        compared with the normalised path. */
    lemma EqJobDir(dir: string, job: string)
      requires Valid() && path == Posix(dir + ['/'] + job + ['/'])
      requires dir != "" && dir != "." && '/' !in dir
      requires job != "" && job != "." && '/' !in job
      ensures Eq(Printed(dir + ['/'] + job))
      ensures !Eq(Printed(dir + ['/'] + job + ['/']))
    {
      PosixStrJobDir(dir, job);
      var q := dir + ['/'] + job;
      assert |q + ['/']| != |q|;
    }

    /** `func()`: see `Collect`. */
    method Func(unpack: Unpack) returns (r: Result<Value>)
      requires Valid()
      modifies arena
      ensures Valid()
      ensures arena.names == old(arena.names) && arena.outs == old(arena.outs) && arena.ins == old(arena.ins)
      ensures arena.completed == old(arena.completed)
      ensures arena.attributes == old(arena.attributes)[id := Collect(old(arena.attributes[id]), old(arena.envs[id]), unpack).attrs]
      ensures arena.envs == old(arena.envs)[id := Collect(old(arena.attributes[id]), old(arena.envs[id]), unpack).env]
      ensures r == Collect(old(arena.attributes[id]), old(arena.envs[id]), unpack).answer
    {
      var attrs := arena.attributes[id];
      if Get(attrs, "result").Nil? {
        return Ok(Nil);
      }
      if Get(attrs, "end_time_stamp").Nil? {
        return Ok(List([]));
      }
      var t := Timestamp(attrs["end_time_stamp"]);
      if t.Err? {
        return Err(t.error);
      }
      arena.envs := arena.envs[id := arena.envs[id]["end_time" := Int(t.value)]];
      var stale := Stale(Get(attrs, "results_last_collected"), t.value);
      if stale.Err? {
        return Err(stale.error);
      }
      if !stale.value {
        return Ok(Dict(map[]));
      }
      arena.attributes := arena.attributes[id := attrs["results_last_collected" := Int(t.value)]];
      if "job" !in attrs {
        return Err(KeyError);
      }
      r := unpack(attrs["result"], attrs["job"]);
    }

    /** `change_name(new_name)`: both the path and the node's name become
        `newName`, so the node then equals that name. */
    method ChangeName(newName: string)
      requires Valid()
      modifies this, arena
      ensures Valid() && path == Plain(newName) && Eq(Printed(newName))
      ensures arena.names == old(arena.names)[id := newName]
      ensures arena.outs == old(arena.outs) && arena.attributes == old(arena.attributes) && arena.envs == old(arena.envs)
    {
      path := Plain(newName);
      arena.ChangeName(id, newName);
    }
  }
}
