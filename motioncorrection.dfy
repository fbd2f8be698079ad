/** The motion correction parser `MotionCorr`: its cache of job directories
    and the dictionary it builds from the per-micrograph motion columns. */
module MotionCorrs {
  import opened Values

  /** `basepath / key`. */
  function JobPath(basepath: string, key: string): string {
    basepath + "/" + key
  }

  // -------------------------------------------------------------- job cache

  /** A lookup `motioncorr[key]` on the cache `cache`: the answer and the
      new cache. `isDir` says which paths are directories. */
  function Lookup(cache: map<string, string>, basepath: string, key: Value, isDir: string -> bool)
    : (res: (Result<string>, map<string, string>))
  {
    if !key.Str? then (Err(KeyError), cache)
    else if key.s in cache then (Ok(cache[key.s]), cache)
    else if !isDir(JobPath(basepath, key.s)) then (Err(KeyError), cache)
    else (Ok(JobPath(basepath, key.s)), cache[key.s := JobPath(basepath, key.s)])
  }

  /** Every cached entry is the job's directory under the base path. */
  predicate CacheOk(cache: map<string, string>, basepath: string) {
    forall k :: k in cache ==> cache[k] == JobPath(basepath, k)
  }

  /** A lookup keeps the cache correct and only adds to it; a successful
      answer is the job's directory and is cached; a failure is a KeyError
      and leaves the cache as it was. */
  lemma LookupKeeps(cache: map<string, string>, basepath: string, key: Value, isDir: string -> bool)
    requires CacheOk(cache, basepath)
    ensures var (r, c) := Lookup(cache, basepath, key, isDir);
      CacheOk(c, basepath) && cache.Keys <= c.Keys &&
      (forall k :: k in cache ==> c[k] == cache[k]) &&
      (r.Ok? ==> key.Str? && key.s in c && r.value == JobPath(basepath, key.s)) &&
      (r.Err? ==> r.error == KeyError && c == cache)
  {
  }

  /** Once a key has been found, asking again gives the same answer from
      the cache, whatever the file system now says. */
  lemma LookupAgain(cache: map<string, string>, basepath: string, key: Value, isDir: string -> bool, isDir': string -> bool)
    requires Lookup(cache, basepath, key, isDir).0.Ok?
    ensures var (r, c) := Lookup(cache, basepath, key, isDir);
      Lookup(c, basepath, key, isDir') == (r, c)
  {
  }

  /** Only strings are keys: anything else is a KeyError, cache or not. */
  lemma LookupNonString(cache: map<string, string>, basepath: string, key: Value, isDir: string -> bool)
    ensures !key.Str? <==> (Lookup(cache, basepath, key, isDir).0.Err? && Lookup(cache, basepath, key, isDir).1 == cache &&
      forall isDir': string -> bool :: Lookup(cache, basepath, key, isDir').0.Err?)
  {
    if key.Str? {
      var always := (p: string) => true;
      assert Lookup(cache, basepath, key, always).0.Ok?;
    }
  }

  class MotionCorr {
    const basepath: string
    /** `_jobcache`. */
    var jobcache: map<string, string>

    ghost predicate Valid()
      reads this
    {
      CacheOk(jobcache, basepath)
    }

    constructor (path: string)
      ensures Valid() && basepath == path && jobcache == map[]
    {
      basepath := path;
      jobcache := map[];
    }

    /** `__getitem__(key)`. */
    method GetItem(key: Value, isDir: string -> bool) returns (r: Result<string>)
      requires Valid()
      modifies this
      ensures Valid()
      ensures (r, jobcache) == Lookup(old(jobcache), basepath, key, isDir)
    {
      if !key.Str? {
        return Err(KeyError);
      }
      if key.s !in jobcache {
        var jobPath := JobPath(basepath, key.s);
        if !isDir(jobPath) {
          return Err(KeyError);
        }
        jobcache := jobcache[key.s := jobPath];
      }
      return Ok(jobcache[key.s]);
    }
  }

  // ---------------------------------------------------- per-micrograph dict

  /** An `MCMicrograph`. */
  datatype Micrograph = Micrograph(totalMotion: Value, earlyMotion: Value, lateMotion: Value)

  /** The position of the last occurrence of `x`. */
  function LastIndex<T(==)>(s: seq<T>, x: T): (k: nat)
    requires x in s
    ensures k < |s| && s[k] == x && forall j :: k < j < |s| ==> s[j] != x
  {
    if s[|s| - 1] == x then |s| - 1
    else
      assert x in s[..|s| - 1] by {
        var i :| 0 <= i < |s| && s[i] == x;
        assert s[..|s| - 1][i] == x;
      }
      LastIndex(s[..|s| - 1], x)
  }

  /** The comprehension of `construct_dict` over the first `n` names, which
      the motion lists are long enough for. */
  function Entries(names: seq<string>, total: seq<Value>, early: seq<Value>, late: seq<Value>, n: nat)
    : (d: map<string, Micrograph>)
    requires n <= |names| && n <= |total| && n <= |early| && n <= |late|
    decreases n
  {
    if n == 0 then map[]
    else Entries(names, total, early, late, n - 1)[names[n - 1] := Micrograph(total[n - 1], early[n - 1], late[n - 1])]
  }

  /** `construct_dict(...)`: indexing a motion list past its end is an
      IndexError. */
  function ConstructDict(names: seq<string>, total: seq<Value>, early: seq<Value>, late: seq<Value>)
    : (r: Result<map<string, Micrograph>>)
  {
    if |total| < |names| || |early| < |names| || |late| < |names| then Err(IndexError)
    else Ok(Entries(names, total, early, late, |names|))
  }

  /** The first `n` names are the keys, each with the motions at its last
      index below `n`. */
  lemma {:induction false} EntriesAt(names: seq<string>, total: seq<Value>, early: seq<Value>, late: seq<Value>, n: nat)
    requires n <= |names| && n <= |total| && n <= |early| && n <= |late|
    ensures Entries(names, total, early, late, n).Keys == set k | 0 <= k < n :: names[k]
    ensures forall x :: x in names[..n] ==>
      var i := LastIndex(names[..n], x);
      Entries(names, total, early, late, n)[x] == Micrograph(total[i], early[i], late[i])
    decreases n
  {
    if n > 0 {
      EntriesAt(names, total, early, late, n - 1);
      var p := names[..n];
      assert p[..n - 1] == names[..n - 1];
      forall x | x in p && x != names[n - 1]
        ensures LastIndex(p, x) == LastIndex(names[..n - 1], x)
      {
        assert x in names[..n - 1] by {
          var i :| 0 <= i < n && p[i] == x;
          assert names[..n - 1][i] == x;
        }
      }
    }
  }

  /** `construct_dict` fails exactly when a motion list is shorter than the
      name list; otherwise its keys are exactly the micrograph names, and a
      repeated name keeps the motions of its last occurrence. */
  lemma ConstructDictKeys(names: seq<string>, total: seq<Value>, early: seq<Value>, late: seq<Value>)
    ensures ConstructDict(names, total, early, late).Err? <==>
      |total| < |names| || |early| < |names| || |late| < |names|
    ensures ConstructDict(names, total, early, late).Err? ==> ConstructDict(names, total, early, late).error == IndexError
    ensures ConstructDict(names, total, early, late).Ok? ==>
      var d := ConstructDict(names, total, early, late).value;
      (forall x :: x in d <==> x in names) &&
      forall x :: x in names ==>
        var i := LastIndex(names, x);
        d[x] == Micrograph(total[i], early[i], late[i])
  {
    if |total| >= |names| && |early| >= |names| && |late| >= |names| {
      EntriesAt(names, total, early, late, |names|);
      assert names[..|names|] == names;
      var d := Entries(names, total, early, late, |names|);
      forall x
        ensures x in d <==> x in names
      {
        if x in names {
          var i :| 0 <= i < |names| && names[i] == x;
          assert names[i] in d.Keys;
        }
      }
    }
  }
}
