/** `ClusterNode`: a node whose `func` turns the recorded cluster job
    information into one database row per job. */
module ClusterNodes {
  import opened Values

  /** One entry of `cluster_job_info`: parallel lists of job ids and
      micrograph counts, and the name and per-micrograph flag shared by
      its jobs. */
  datatype ClusterInfo = ClusterInfo(jobIds: seq<Value>, micrographCounts: seq<Value>, jobName: Value, perMicrograph: Value)

  /** How many pairs `zip(job_ids, micrograph_counts)` yields. */
  function Pairs(info: ClusterInfo): (n: nat)
    ensures n <= |info.jobIds| && n <= |info.micrographCounts|
    ensures n == |info.jobIds| || n == |info.micrographCounts|
  {
    if |info.jobIds| <= |info.micrographCounts| then |info.jobIds| else |info.micrographCounts|
  }

  /** The row for the `k`-th pair of `info`. */
  function Row(info: ClusterInfo, k: nat): (row: map<string, Value>)
    requires k < Pairs(info)
    ensures row.Keys == {"job_id", "micrograph_count", "job_name", "per_micrograph"}
    ensures row["job_id"] == info.jobIds[k] && row["micrograph_count"] == info.micrographCounts[k]
    ensures row["job_name"] == info.jobName && row["per_micrograph"] == info.perMicrograph
  {
    map["job_id" := info.jobIds[k], "micrograph_count" := info.micrographCounts[k],
        "job_name" := info.jobName, "per_micrograph" := info.perMicrograph]
  }

  /** The rows of one entry, pair by pair. */
  function Zipped(info: ClusterInfo): (rows: seq<Value>)
    ensures |rows| == Pairs(info)
  {
    seq(Pairs(info), k requires 0 <= k < Pairs(info) => Dict(Row(info, k)))
  }

  /** The rows of every entry of `infos`, entry by entry. */
  function Flatten(infos: seq<ClusterInfo>): seq<Value>
    decreases |infos|
  {
    if infos == [] then [] else Flatten(infos[..|infos| - 1]) + Zipped(infos[|infos| - 1])
  }

  /** The number of pairs of all entries together. */
  function TotalPairs(infos: seq<ClusterInfo>): nat
    decreases |infos|
  {
    if infos == [] then 0 else TotalPairs(infos[..|infos| - 1]) + Pairs(infos[|infos| - 1])
  }

  /** There is one row per pair, so none for an empty list. */
  lemma {:induction false} FlattenLength(infos: seq<ClusterInfo>)
    ensures |Flatten(infos)| == TotalPairs(infos)
    decreases |infos|
  {
    if infos != [] {
      FlattenLength(infos[..|infos| - 1]);
    }
  }

  /** Row `k` of entry `i` (which is `Dict(Row(infos[i], k))`) sits
      after the rows of the entries before it: the entries are taken in
      order, and each entry's pairs in order. */
  lemma {:induction false} FlattenAt(infos: seq<ClusterInfo>, i: nat, k: nat)
    requires i < |infos| && k < Pairs(infos[i])
    ensures TotalPairs(infos[..i]) + k < |Flatten(infos)|
    ensures Flatten(infos)[TotalPairs(infos[..i]) + k] == Zipped(infos[i])[k]
    decreases |infos|
  {
    var n := |infos| - 1;
    var front, last := Flatten(infos[..n]), Zipped(infos[n]);
    assert Flatten(infos) == front + last;
    FlattenLength(infos[..n]);
    if i == n {
      assert infos[..i] == infos[..n];
      assert (front + last)[|front| + k] == last[k];
    } else {
      assert infos[..n][..i] == infos[..i];
      FlattenAt(infos[..n], i, k);
      assert (front + last)[TotalPairs(infos[..i]) + k] == front[TotalPairs(infos[..i]) + k];
    }
  }

  class ClusterNode {
    /** `_cluster_job_info`. */
    const infos: seq<ClusterInfo>

    constructor (cluster: seq<ClusterInfo>)
      ensures infos == cluster
    {
      infos := cluster;
    }

    /** `func()`: for each entry and each of its (job id, count) pairs,
        one row. */
    method Func() returns (res: seq<Value>)
      ensures res == Flatten(infos)
    {
      res := [];
      var i := 0;
      while i < |infos|
        invariant 0 <= i <= |infos| && res == Flatten(infos[..i])
      {
        res := AppendRows(infos[i], res);
        assert infos[..i + 1][..i] == infos[..i];
        i := i + 1;
      }
      assert infos[..i] == infos;
    }
  }

  /** The inner loop of `func`: the rows of one entry appended to `res`. */
  method AppendRows(info: ClusterInfo, res0: seq<Value>) returns (res: seq<Value>)
    ensures res == res0 + Zipped(info)
  {
    res := res0;
    var k := 0;
    while k < |info.jobIds| && k < |info.micrographCounts|
      invariant 0 <= k <= Pairs(info) && res == res0 + Zipped(info)[..k]
    {
      var row := map[];
      row := row["job_id" := info.jobIds[k]];
      row := row["micrograph_count" := info.micrographCounts[k]];
      row := row["job_name" := info.jobName];
      row := row["per_micrograph" := info.perMicrograph];
      assert row == Row(info, k);
      res := res + [Dict(row)];
      assert Zipped(info)[..k + 1] == Zipped(info)[..k] + [Dict(Row(info, k))];
      k := k + 1;
    }
    assert Zipped(info)[..k] == Zipped(info);
  }
}
