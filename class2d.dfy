/** The helpers of the 2D classification parser `Class2D`: counting the
    particles per class, filling in the classes that have none, picking the
    files of the last iteration, keeping the twenty most populated classes,
    turning classes into database rows and reading the batch number and the
    picker job out of file names. The 3D parser shares most of them. */
module Class2Ds {
  import opened Values

  /** A `(class number, particle count)` pair. */
  type Pair = (int, int)

  // ------------------------------------------------------------- counting

  /** The counts of the items `l`, added up. */
  function CountSum<K>(l: seq<(K, nat)>): nat
    decreases |l|
  {
    if l == [] then 0 else l[0].1 + CountSum(l[1..])
  }

  /** The count an insertion-ordered counter holds for `k`. */
  function CountOf<K(==)>(l: seq<(K, nat)>, k: K): nat {
    match AssocGet(l, k)
    case None => 0
    case Some(c) => c
  }

  /** `Counter(xs)`: each distinct element of `xs` with its number of
      occurrences, in order of first occurrence. */
  function Tally<T(==)>(xs: seq<T>): seq<(T, nat)>
    decreases |xs|
  {
    if xs == [] then []
    else
      var t := Tally(xs[..|xs| - 1]);
      AssocSet<T, nat>(t, xs[|xs| - 1], CountOf(t, xs[|xs| - 1]) + 1)
  }

  /** Setting one count changes the sum by the difference. */
  lemma {:induction false} CountSumSet<K>(l: seq<(K, nat)>, k: K, v: nat)
    ensures CountSum(AssocSet(l, k, v)) + CountOf(l, k) == CountSum(l) + v
    decreases |l|
  {
    if l != [] && l[0].0 != k {
      var r := [l[0]] + AssocSet(l[1..], k, v);
      assert r[1..] == AssocSet(l[1..], k, v);
      CountSumSet(l[1..], k, v);
    }
  }

  /** An element is counted exactly when it occurs. */
  lemma {:induction false} CountPositive<T>(s: seq<T>, x: T)
    ensures Count(s, x) > 0 <==> x in s
    decreases |s|
  {
    if s != [] {
      CountPositive(s[..|s| - 1], x);
      assert s == s[..|s| - 1] + [s[|s| - 1]];
    }
  }

  /** `_sum_all_particles`: the counter holds exactly the elements of `xs`,
      each with its number of occurrences, and the counts add up to the
      length of `xs`, so nothing is counted for an empty column. */
  lemma {:induction false} TallyCounts<T>(xs: seq<T>)
    ensures forall x :: AssocGet(Tally(xs), x) == if x in xs then Some(Count(xs, x)) else None
    ensures CountSum(Tally(xs)) == |xs|
    ensures Tally(xs) == [] <==> xs == []
    decreases |xs|
  {
    if xs != [] {
      var n := |xs| - 1;
      var p, x := xs[..n], xs[n];
      TallyCounts(p);
      var t := Tally(p);
      assert xs == p + [x];
      assert Tally(xs) == AssocSet<T, nat>(t, x, CountOf(t, x) + 1);
      forall y
        ensures AssocGet(Tally(xs), y) == if y in xs then Some(Count(xs, y)) else None
      {
        AssocSetGet<T, nat>(t, x, CountOf(t, x) + 1, y);
        assert Count(xs, y) == Count(p, y) + if x == y then 1 else 0;
        assert y in xs <==> y in p || y == x;
        if y == x {
          CountPositive(p, x);
        }
      }
      CountSumSet<T>(t, x, CountOf(t, x) + 1);
      assert AssocSet<T, nat>(t, x, CountOf(t, x) + 1) != [] by {
        AssocSetGet<T, nat>(t, x, CountOf(t, x) + 1, x);
      }
    }
  }

  /** `int(s)` on the digit strings a STAR column holds; anything else is a
      ValueError. */
  function ParseInt(s: string): (r: Result<int>)
    ensures r.Ok? <==> IsNumeric(s)
    ensures r.Err? ==> r.error == ValueError
  {
    if IsNumeric(s) then Ok(DigitsValue(s)) else Err(ValueError)
  }

  /** `[(int(name), value) for name, value in particle_sum.items()]`. */
  function IntPairs(t: seq<(string, nat)>): (r: Result<seq<Pair>>)
    ensures r.Ok? <==> forall k :: 0 <= k < |t| ==> IsNumeric(t[k].0)
    ensures r.Err? ==> r.error == ValueError
    ensures r.Ok? ==> |r.value| == |t|
    ensures r.Ok? ==> forall k :: 0 <= k < |t| ==> ParseInt(t[k].0) == Ok(r.value[k].0) && r.value[k].1 == t[k].1
    decreases |t|
  {
    if t == [] then Ok([])
    else
      var last := t[|t| - 1];
      match IntPairs(t[..|t| - 1])
      case Err(e) => Err(e)
      case Ok(ps) =>
        match ParseInt(last.0)
        case Err(e) => Err(e)
        case Ok(c) => Ok(ps + [(c, last.1)])
  }

  // -------------------------------------------------------------- sorting

  /** `le` orders any two values, transitively. */
  ghost predicate TotalPreorder<T(!new)>(le: (T, T) -> bool) {
    (forall a, b :: le(a, b) || le(b, a)) &&
    (forall a, b, c :: le(a, b) && le(b, c) ==> le(a, c))
  }

  predicate Ascending<T>(s: seq<T>, le: (T, T) -> bool) {
    forall i, j :: 0 <= i < j < |s| ==> le(s[i], s[j])
  }

  /** `x` placed after the elements of `t` at the end that are above it: one
      step of a stable insertion sort. */
  function InsertBy<T>(x: T, t: seq<T>, le: (T, T) -> bool): (r: seq<T>)
    ensures multiset(r) == multiset(t) + multiset{x}
    decreases |t|
  {
    if t == [] || le(t[|t| - 1], x) then t + [x]
    else
      assert t == t[..|t| - 1] + [t[|t| - 1]];
      InsertBy(x, t[..|t| - 1], le) + [t[|t| - 1]]
  }

  /** Python's `sorted`: a stable sort under `le`. */
  function SortBy<T>(s: seq<T>, le: (T, T) -> bool): (r: seq<T>)
    ensures multiset(r) == multiset(s)
    decreases |s|
  {
    if s == [] then []
    else
      assert s == s[..|s| - 1] + [s[|s| - 1]];
      InsertBy(s[|s| - 1], SortBy(s[..|s| - 1], le), le)
  }

  lemma {:induction false} InsertBySorted<T(!new)>(x: T, t: seq<T>, le: (T, T) -> bool)
    requires TotalPreorder(le) && Ascending(t, le)
    ensures Ascending(InsertBy(x, t, le), le)
    decreases |t|
  {
    if t != [] && !le(t[|t| - 1], x) {
      var n := |t| - 1;
      var rest := InsertBy(x, t[..n], le);
      InsertBySorted(x, t[..n], le);
      forall i | 0 <= i < |rest|
        ensures le(rest[i], t[n])
      {
        assert rest[i] in multiset(rest);
        if rest[i] != x {
          assert rest[i] in t[..n];
        }
      }
    }
  }

  /** The sort orders its result and only reorders its input. */
  lemma {:induction false} SortBySorted<T(!new)>(s: seq<T>, le: (T, T) -> bool)
    requires TotalPreorder(le)
    ensures Ascending(SortBy(s, le), le) && multiset(SortBy(s, le)) == multiset(s)
    decreases |s|
  {
    if s != [] {
      SortBySorted(s[..|s| - 1], le);
      InsertBySorted(s[|s| - 1], SortBy(s[..|s| - 1], le), le);
    }
  }

  /** Python's ordering of `(int, int)` tuples. */
  predicate PairLe(a: Pair, b: Pair) {
    a.0 < b.0 || (a.0 == b.0 && a.1 <= b.1)
  }

  lemma PairLeTotal()
    ensures TotalPreorder(PairLe)
  {
  }

  // -------------------------------------------------------- class checker

  /** `i in (c, n)`: the number `i` is either component of the pair. */
  predicate Mentions(p: Pair, i: int) {
    p.0 == i || p.1 == i
  }

  /** Round `i` of `_class_checker`: an IndexError when the list is too
      short to have an entry at `i - 1`, else `(i, 0)` inserted there
      unless that entry mentions `i`. */
  function CheckStep(l: seq<Pair>, i: nat): (r: Result<seq<Pair>>)
    requires i >= 1
  {
    if i - 1 >= |l| then Err(IndexError)
    else if Mentions(l[i - 1], i) then Ok(l)
    else Ok(l[..i - 1] + [(i, 0)] + l[i - 1..])
  }

  /** Rounds `i`, ..., `length - 1` of `_class_checker`. */
  function CheckFrom(l: seq<Pair>, i: nat, length: nat): Result<seq<Pair>>
    requires i >= 1
    decreases length - i
  {
    if i >= length then Ok(l)
    else
      match CheckStep(l, i)
      case Err(e) => Err(e)
      case Ok(l') => CheckFrom(l', i + 1, length)
  }

  /** Entries `0`, ..., `n - 1` exist and entry `k` mentions class `k + 1`. */
  predicate Covers(l: seq<Pair>, n: int) {
    n <= |l| && forall k :: 0 <= k < n ==> Mentions(l[k], k + 1)
  }

  /** `_class_checker(tuple_list, length)`, inserting into its own copy of
      the list. */
  method ClassChecker(tupleList: seq<Pair>, length: nat) returns (r: Result<seq<Pair>>)
    ensures r == CheckFrom(tupleList, 1, length)
  {
    var l := tupleList;
    var i: nat := 1;
    while i < length
      invariant i >= 1 && CheckFrom(l, i, length) == CheckFrom(tupleList, 1, length)
      decreases length - i
    {
      if i - 1 >= |l| {
        return Err(IndexError);
      }
      if !Mentions(l[i - 1], i) {
        l := l[..i - 1] + [(i, 0)] + l[i - 1..];
      }
      i := i + 1;
    }
    return Ok(l);
  }

  /** The only failure is an IndexError; after a success, classes `1` to
      `length - 1` each have an entry at their own index (class `length`
      itself is never looked at). */
  lemma {:induction false} CheckFromCovers(l: seq<Pair>, i: nat, length: nat)
    requires i >= 1 && Covers(l, i - 1)
    ensures CheckFrom(l, i, length).Err? ==> CheckFrom(l, i, length).error == IndexError
    ensures CheckFrom(l, i, length).Ok? ==> Covers(CheckFrom(l, i, length).value, length - 1)
    decreases length - i
  {
    if i >= length {
      assert CheckFrom(l, i, length) == Ok(l);
      assert Covers(l, length - 1);
    } else if CheckStep(l, i).Err? {
      assert CheckStep(l, i) == Err(IndexError);
      assert CheckFrom(l, i, length) == Err(IndexError);
    } else {
      var l' := CheckStep(l, i).value;
      assert forall k :: 0 <= k < i - 1 ==> l'[k] == l[k];
      assert Covers(l', i);
      CheckFromCovers(l', i + 1, length);
      assert CheckFrom(l, i, length) == CheckFrom(l', i + 1, length);
    }
  }

  /** `a` is a subsequence of `a` with one element inserted. */
  lemma {:induction false} InsertSubseq<T>(a: seq<T>, k: nat, x: T)
    requires k <= |a|
    ensures IsSubseq(a, a[..k] + [x] + a[k..])
    decreases k
  {
    var b := a[..k] + [x] + a[k..];
    if k == 0 {
      assert b == [x] + a && b[1..] == a;
      IsSubseqRefl(a);
      assert |a| <= |b| && IsSubseq(a, b[1..]);
    } else {
      var b' := a[1..][..k - 1] + [x] + a[1..][k - 1..];
      InsertSubseq(a[1..], k - 1, x);
      assert b[1..] == b' && b[0] == a[0];
      assert |a| <= |b| && IsSubseq(a[1..], b[1..]);
    }
  }

  lemma {:induction false} SubseqTrans<T>(a: seq<T>, b: seq<T>, c: seq<T>)
    requires IsSubseq(a, b) && IsSubseq(b, c)
    ensures IsSubseq(a, c)
    decreases |c|
  {
    if a != [] {
      if b[0] == c[0] && IsSubseq(b[1..], c[1..]) {
        if a[0] == b[0] && IsSubseq(a[1..], b[1..]) {
          SubseqTrans(a[1..], b[1..], c[1..]);
        } else {
          SubseqTrans(a, b[1..], c[1..]);
        }
      } else {
        SubseqTrans(a, b, c[1..]);
      }
    }
  }

  /** The check only inserts: the original entries keep their relative
      order, the list never shrinks, and every new entry is `(i, 0)` for a
      class `i` the loop visited. */
  lemma {:induction false} CheckFromKeeps(l: seq<Pair>, i: nat, length: nat)
    requires i >= 1
    ensures CheckFrom(l, i, length).Ok? ==>
      var r := CheckFrom(l, i, length).value;
      IsSubseq(l, r) && |r| >= |l| &&
      forall k :: 0 <= k < |r| ==> r[k] in l || (r[k].1 == 0 && i <= r[k].0 < length)
    decreases length - i
  {
    if i >= length {
      IsSubseqRefl(l);
    } else if CheckStep(l, i).Ok? {
      var l' := CheckStep(l, i).value;
      CheckFromKeeps(l', i + 1, length);
      if l' == l {
        IsSubseqRefl(l);
      } else {
        InsertSubseq(l, i - 1, (i, 0));
      }
      var r := CheckFrom(l', i + 1, length);
      if r.Ok? {
        SubseqTrans(l, l', r.value);
        forall k | 0 <= k < |r.value|
          ensures r.value[k] in l || (r.value[k].1 == 0 && i <= r.value[k].0 < length)
        {
          if r.value[k] in l' && r.value[k] !in l {
            assert r.value[k] == (i, 0);
          }
        }
      }
    }
  }

  /** A list with an entry for every visited index never runs short. */
  lemma {:induction false} CheckFromLong(l: seq<Pair>, i: nat, length: nat)
    requires i >= 1 && length <= |l| + 1
    ensures CheckFrom(l, i, length).Ok?
    decreases length - i
  {
    if i < length {
      CheckFromLong(CheckStep(l, i).value, i + 1, length);
    }
  }

  /** A missing class is inserted in its place. */
  lemma ClassCheckerInserts()
    ensures CheckFrom([(2, 4)], 1, 3) == Ok([(1, 0), (2, 4)])
  {
    var l := [(2, 4)];
    assert l[..0] + [(1, 0)] + l[0..] == [(1, 0), (2, 4)];
    assert CheckStep(l, 1) == Ok([(1, 0), (2, 4)]);
    assert CheckStep([(1, 0), (2, 4)], 2) == Ok([(1, 0), (2, 4)]);
  }

  /** A count equal to the class number is taken for the class. */
  lemma ClassCheckerMatchesCount()
    ensures CheckFrom([(3, 1)], 1, 2) == Ok([(3, 1)])
  {
    assert CheckStep([(3, 1)], 1) == Ok([(3, 1)]);
  }

  /** An empty list runs short at once. */
  lemma ClassCheckerShort()
    ensures CheckFrom([], 1, 2) == Err(IndexError)
  {
  }

  /** Lines 99-108 of the loaders: the class-number column is counted, the
      counts keyed by `int`, and the sorted pairs checked against the
      number of reference images. No counts stand for the loader's early
      `[]`. */
  function CheckedCounts(classNumbers: seq<string>, references: nat): (r: Result<seq<Pair>>) {
    match IntPairs(Tally(classNumbers))
    case Err(e) => Err(e)
    case Ok(ps) => if ps == [] then Ok([]) else CheckFrom(SortBy(ps, PairLe), 1, references)
  }

  /** The loader stops with no classes exactly when the column is empty. */
  lemma CheckedCountsEmpty(classNumbers: seq<string>, references: nat)
    ensures CheckedCounts(classNumbers, references) == Ok([]) <==> classNumbers == []
  {
    TallyCounts(classNumbers);
    var ps := IntPairs(Tally(classNumbers));
    if classNumbers != [] && ps.Ok? {
      var sorted := SortBy(ps.value, PairLe);
      assert |sorted| == |ps.value| by {
        assert |multiset(sorted)| == |multiset(ps.value)|;
      }
      CheckFromKeeps(sorted, 1, references);
    }
  }

  // ---------------------------------------------------- latest iteration

  function DigitChar(d: nat): (c: char)
    requires d < 10
    ensures IsDigit(c) && DigitValue(c) == d
  {
    ('0' as int + d) as char
  }

  /** `str(n)`: the decimal digits of `n`, without leading zeros. */
  function Decimal(n: nat): (r: string)
    ensures IsNumeric(r) && DigitsValue(r) == n
    ensures r[0] == '0' ==> n == 0
    ensures n < 10 ==> |r| == 1
    ensures n < 100 ==> |r| <= 2
    ensures n < 1000 ==> |r| <= 3
  {
    if n < 10 then [DigitChar(n)]
    else
      var q, d := n / 10, n % 10;
      assert n == 10 * q + d && d < 10;
      assert n < 100 ==> q < 10;
      assert n < 1000 ==> q < 100;
      var r := Decimal(q) + [DigitChar(d)];
      assert r[..|r| - 1] == Decimal(q);
      r
  }

  /** Leading zeros do not change the value of a digit string. */
  lemma {:induction false} DigitsValueZeros(k: nat, s: string)
    requires IsNumeric(s)
    ensures IsNumeric(Repeat('0', k) + s) && DigitsValue(Repeat('0', k) + s) == DigitsValue(s)
    decreases |s|
  {
    var z := Repeat('0', k);
    var t := z + s;
    assert forall j :: 0 <= j < |t| ==> t[j] == if j < k then '0' else s[j - k];
    var last := s[|s| - 1];
    assert t[|t| - 1] == last;
    var p := s[..|s| - 1];
    assert t[..|t| - 1] == z + p;
    if |s| == 1 {
      assert p == [];
      assert z + p == z;
      ZerosValue(k);
      calc {
        DigitsValue(t);
        10 * DigitsValue(z) + DigitValue(last);
        DigitValue(last);
        10 * DigitsValue(p) + DigitValue(last);
      }
    } else {
      DigitsValueZeros(k, p);
    }
  }

  lemma {:induction false} ZerosValue(k: nat)
    ensures DigitsValue(Repeat('0', k)) == 0
    decreases k
  {
    if k > 0 {
      ZerosValue(k - 1);
      assert Repeat('0', k)[..k - 1] == Repeat('0', k - 1);
    }
  }

  /** `f"{n:03d}"`: the decimal digits of `n`, zero-padded to three. */
  function Pad3(n: nat): (r: string)
    ensures IsNumeric(r) && DigitsValue(r) == n
    ensures n < 1000 ==> |r| == 3
  {
    var d := Decimal(n);
    var r := Repeat('0', if |d| < 3 then 3 - |d| else 0) + d;
    DigitsValueZeros(if |d| < 3 then 3 - |d| else 0, d);
    r
  }

  /** The iteration a `run_it*.star` stem names: `stem[6:9]`, when numeric. */
  function IterationOf(stem: string): (r: Option<nat>) {
    var n := Slice(stem, 6, 9);
    if IsNumeric(n) then Some(DigitsValue(n)) else None
  }

  /** `max((int(n) for n in number_list if n.isnumeric()), default=0)`. */
  function LastIteration(stems: seq<string>): nat
    decreases |stems|
  {
    if stems == [] then 0
    else
      var m := LastIteration(stems[..|stems| - 1]);
      match IterationOf(stems[|stems| - 1])
      case Some(v) => if v > m then v else m
      case None => m
  }

  /** The last iteration bounds every numbered stem and, when it is not 0,
      is the number of one of them. */
  lemma {:induction false} LastIterationMax(stems: seq<string>)
    ensures forall k :: 0 <= k < |stems| && IterationOf(stems[k]).Some? ==>
      IterationOf(stems[k]).value <= LastIteration(stems)
    ensures LastIteration(stems) != 0 ==>
      exists k :: 0 <= k < |stems| && IterationOf(stems[k]) == Some(LastIteration(stems))
    decreases |stems|
  {
    if stems != [] {
      var n := |stems| - 1;
      LastIterationMax(stems[..n]);
      assert forall k :: 0 <= k < n ==> stems[..n][k] == stems[k];
      if LastIteration(stems) != 0 && LastIteration(stems) == LastIteration(stems[..n]) {
        var k :| 0 <= k < n && IterationOf(stems[..n][k]) == Some(LastIteration(stems[..n]));
        assert IterationOf(stems[k]) == Some(LastIteration(stems));
      }
    }
  }

  /** An iteration number has at most three digits. */
  lemma IterationBound(stem: string)
    ensures IterationOf(stem).Some? ==> IterationOf(stem).value < 1000
  {
    if IsNumeric(Slice(stem, 6, 9)) {
      DigitsBound(Slice(stem, 6, 9));
    }
  }

  /** Up to three digits stay below 1000. */
  lemma {:induction false} DigitsBound(s: string)
    requires forall k :: 0 <= k < |s| ==> IsDigit(s[k])
    ensures |s| <= 1 ==> DigitsValue(s) < 10
    ensures |s| <= 2 ==> DigitsValue(s) < 100
    ensures |s| <= 3 ==> DigitsValue(s) < 1000
    decreases |s|
  {
    if s != [] {
      DigitsBound(s[..|s| - 1]);
    }
  }

  function DataName(n: nat): string {
    "run_it" + Pad3(n) + "_data.star"
  }

  function ModelName(n: nat): string {
    "run_it" + Pad3(n) + "_model.star"
  }

  /** The stem of an iteration's data file names that iteration again. */
  lemma DataNameStem(n: nat)
    requires n < 1000
    ensures IterationOf(DataName(n)[..|DataName(n)| - 5]) == Some(n)
  {
    var p := Pad3(n);
    var d := DataName(n);
    assert d == "run_it" + p + "_data.star";
    var stem := d[..|d| - 5];
    assert stem == "run_it" + p + "_data";
    assert Slice(stem, 6, 9) == p;
  }

  /** `_final_data_and_model(job_path)` given the stems of the job's
      `run_it*.star` files and which files of the job exist. */
  function FinalDataAndModel(stems: seq<string>, present: string -> bool): (r: Result<(string, string)>) {
    var n := LastIteration(stems);
    if n == 0 then Err(ValueError)
    else if !present(DataName(n)) || !present(ModelName(n)) then Err(ValueError)
    else Ok((DataName(n), ModelName(n)))
  }

  /** The chosen files are those of the largest iteration among the stems,
      and the data file's own stem names that iteration again; the only
      error is ValueError, raised when no stem has a non-zero number or a
      file is missing. */
  lemma FinalDataAndModelPicks(stems: seq<string>, present: string -> bool)
    ensures FinalDataAndModel(stems, present).Err? ==> FinalDataAndModel(stems, present).error == ValueError
    ensures FinalDataAndModel(stems, present).Err? <==>
      (forall k :: 0 <= k < |stems| ==> IterationOf(stems[k]) in {None, Some(0)}) ||
      !present(DataName(LastIteration(stems))) || !present(ModelName(LastIteration(stems)))
    ensures FinalDataAndModel(stems, present).Ok? ==>
      var n := FinalDataAndModel(stems, present).value;
      n.0 == DataName(LastIteration(stems)) && n.1 == ModelName(LastIteration(stems)) &&
      (exists k :: 0 <= k < |stems| && IterationOf(stems[k]) == Some(LastIteration(stems))) &&
      (forall k :: 0 <= k < |stems| && IterationOf(stems[k]).Some? ==> IterationOf(stems[k]).value <= LastIteration(stems)) &&
      IterationOf(n.0[..|n.0| - 5]) == Some(LastIteration(stems))
  {
    LastIterationMax(stems);
    var n := LastIteration(stems);
    if n != 0 {
      var k :| 0 <= k < |stems| && IterationOf(stems[k]) == Some(n);
      IterationBound(stems[k]);
      DataNameStem(n);
    }
  }

  // ----------------------------------------------------------- top twenty

  /** A `Class2DParticleClass`; the float `class_distribution` is an
      integer key here. */
  datatype ParticleClass = ParticleClass(
    particleSum: Pair,
    referenceImage: Value,
    classDistribution: int,
    accuracyRotations: Value,
    accuracyTranslations: Value,
    estimatedResolution: Value,
    fourierCompleteness: Value,
    job: Value,
    pickerJob: Value,
    batchNumber: Value)

  predicate DistLe(a: ParticleClass, b: ParticleClass) {
    a.classDistribution <= b.classDistribution
  }

  /** `s[-n:]`. */
  function LastN<T>(s: seq<T>, n: nat): (r: seq<T>)
    ensures |r| == if |s| < n then |s| else n
  {
    if |s| <= n then s else s[|s| - n..]
  }

  /** `list.reverse()`. */
  function Reverse<T>(s: seq<T>): (r: seq<T>)
    ensures |r| == |s| && forall k :: 0 <= k < |s| ==> r[k] == s[|s| - 1 - k]
    ensures multiset(r) == multiset(s)
    decreases |s|
  {
    if s == [] then []
    else
      assert s == s[..|s| - 1] + [s[|s| - 1]];
      [s[|s| - 1]] + Reverse(s[..|s| - 1])
  }

  /** One list of `top_twenty`: sorted by class distribution, the last
      twenty, reversed. */
  function TopTwenty(cls: seq<ParticleClass>): seq<ParticleClass> {
    Reverse(LastN(SortBy(cls, DistLe), 20))
  }

  lemma DistLeTotal()
    ensures TotalPreorder(DistLe)
  {
  }

  /** In an ascending list everything before a cut is below everything
      after it. */
  lemma AscendingCut<T>(s: seq<T>, c: nat, le: (T, T) -> bool)
    requires Ascending(s, le) && c <= |s|
    ensures forall y, x :: y in s[..c] && x in s[c..] ==> le(y, x)
  {
    forall y, x | y in s[..c] && x in s[c..]
      ensures le(y, x)
    {
      var i :| 0 <= i < c && s[..c][i] == y;
      var j :| 0 <= j < |s| - c && s[c..][j] == x;
      assert s[i] == y && s[c + j] == x;
    }
  }

  /** The sorted classes, cut where `top_twenty` takes its part. */
  lemma SortedParts(cls: seq<ParticleClass>) returns (lo: seq<ParticleClass>, hi: seq<ParticleClass>)
    ensures SortBy(cls, DistLe) == lo + hi && LastN(SortBy(cls, DistLe), 20) == hi
    ensures |hi| == if |cls| < 20 then |cls| else 20
    ensures multiset(cls) == multiset(lo) + multiset(hi)
    ensures Ascending(lo + hi, DistLe)
  {
    DistLeTotal();
    SortBySorted(cls, DistLe);
    var s := SortBy(cls, DistLe);
    assert |s| == |cls| by {
      assert |multiset(s)| == |multiset(cls)|;
    }
    var m := if |s| < 20 then |s| else 20;
    lo, hi := s[..|s| - m], s[|s| - m..];
    assert s == lo + hi;
  }

  /** `top_twenty` keeps at most twenty of the classes, in non-increasing
      order of class distribution. */
  lemma TopTwentyOrder(cls: seq<ParticleClass>)
    ensures |TopTwenty(cls)| == if |cls| < 20 then |cls| else 20
    ensures forall i, j :: 0 <= i < j < |TopTwenty(cls)| ==>
      TopTwenty(cls)[i].classDistribution >= TopTwenty(cls)[j].classDistribution
  {
    var lo, hi := SortedParts(cls);
    var r := Reverse(hi);
    assert TopTwenty(cls) == r;
    forall i, j | 0 <= i < j < |r|
      ensures r[i].classDistribution >= r[j].classDistribution
    {
      assert r[i] == (lo + hi)[|lo| + |hi| - 1 - i];
      assert r[j] == (lo + hi)[|lo| + |hi| - 1 - j];
    }
  }

  /** Every class `top_twenty` drops has a class distribution no larger
      than any class it keeps, and it keeps only classes it was given. */
  lemma TopTwentyLargest(cls: seq<ParticleClass>) returns (dropped: seq<ParticleClass>)
    ensures multiset(cls) == multiset(dropped) + multiset(TopTwenty(cls))
    ensures forall x, y :: x in TopTwenty(cls) && y in dropped ==> y.classDistribution <= x.classDistribution
  {
    var lo, hi := SortedParts(cls);
    var r := Reverse(hi);
    assert TopTwenty(cls) == r;
    AscendingCut(lo + hi, |lo|, DistLe);
    assert (lo + hi)[..|lo|] == lo && (lo + hi)[|lo|..] == hi;
    forall x: ParticleClass, y: ParticleClass | x in r && y in lo
      ensures y.classDistribution <= x.classDistribution
    {
      assert x in multiset(r);
      assert x in hi;
    }
    dropped := lo;
  }

  /** `top_twenty(dictionary)`: every key kept, each list cut down. */
  method TopTwentyAll(dictionary: map<string, seq<ParticleClass>>) returns (r: map<string, seq<ParticleClass>>)
    ensures r.Keys == dictionary.Keys
    ensures forall k :: k in r ==> r[k] == TopTwenty(dictionary[k])
  {
    r := map[];
    var todo := dictionary.Keys;
    while todo != {}
      invariant todo <= dictionary.Keys && r.Keys == dictionary.Keys - todo
      invariant forall k :: k in r ==> r[k] == TopTwenty(dictionary[k])
      decreases todo
    {
      var item :| item in todo;
      r := r[item := TopTwenty(dictionary[item])];
      todo := todo - {item};
    }
  }

  // ------------------------------------------------------------ db_unpack

  /** The row `db_unpack` writes for one class (`job_string` is listed twice
      in the source with the same value). */
  function Row(cl: ParticleClass): (row: map<string, Value>)
    ensures row.Keys == {"type", "job_string", "parpick_job_string", "class_number", "particles_per_class",
      "rotation_accuracy", "translation_accuracy", "estimated_resolution", "overall_fourier_completeness",
      "batch_number"}
    ensures row["type"] == Str("2D") && row["job_string"] == cl.job && row["parpick_job_string"] == cl.pickerJob
    ensures row["class_number"] == Int(cl.particleSum.0) && row["particles_per_class"] == Int(cl.particleSum.1)
    ensures row["batch_number"] == cl.batchNumber
  {
    map["type" := Str("2D"), "job_string" := cl.job, "parpick_job_string" := cl.pickerJob,
        "class_number" := Int(cl.particleSum.0), "particles_per_class" := Int(cl.particleSum.1),
        "rotation_accuracy" := cl.accuracyRotations, "translation_accuracy" := cl.accuracyTranslations,
        "estimated_resolution" := cl.estimatedResolution,
        "overall_fourier_completeness" := cl.fourierCompleteness, "batch_number" := cl.batchNumber]
  }

  /** One row per class, in order. */
  function Unpacked(cls: seq<ParticleClass>): (rows: seq<Value>)
    ensures |rows| == |cls|
  {
    seq(|cls|, k requires 0 <= k < |cls| => Dict(Row(cls[k])))
  }

  /** `db_unpack(particle_class)`. */
  method DbUnpack(cls: seq<ParticleClass>) returns (res: seq<Value>)
    ensures res == Unpacked(cls)
  {
    res := [];
    var k := 0;
    while k < |cls|
      invariant 0 <= k <= |cls| && res == Unpacked(cls)[..k]
    {
      res := res + [Dict(Row(cls[k]))];
      assert Unpacked(cls)[..k + 1] == Unpacked(cls)[..k] + [Unpacked(cls)[k]];
      k := k + 1;
    }
    assert Unpacked(cls)[..k] == Unpacked(cls);
  }

  // ------------------------------------------------------ file name parts

  /** `s.split(pat)[-1]`: what follows the last occurrence of `pat` found
      scanning from the left. */
  function LastPiece(s: string, pat: string): (r: string)
    requires pat != []
    ensures |r| <= |s|
    decreases |s|
  {
    if !Contains(s, pat) then s
    else if IsPrefix(pat, s) then LastPiece(s[|pat|..], pat)
    else LastPiece(s[1..], pat)
  }

  /** The batch number of a particle file name:
      `name.split("split")[-1].split(".")[0]`. */
  function BatchNumber(name: string): (r: string)
    ensures '.' !in r
  {
    var pieces := Split(LastPiece(name, "split"), '.');
    SplitPiecesFree(LastPiece(name, "split"), '.');
    pieces[0]
  }

  /** The picker job of a coordinate file name: `name.split("/")[1]`. */
  function PickerJob(name: string): (r: Result<string>)
    ensures r.Ok? ==> '/' !in r.value
    ensures r.Err? ==> r.error == IndexError
  {
    var parts := Split(name, '/');
    SplitPiecesFree(name, '/');
    if |parts| < 2 then Err(IndexError) else Ok(parts[1])
  }

  lemma {:induction false} ContainsAfter(a: string, pat: string, b: string)
    ensures Contains(a + pat + b, pat)
    decreases |a|
  {
    var s := a + pat + b;
    if a == [] {
      assert s[..|pat|] == pat;
    } else {
      ContainsAfter(a[1..], pat, b);
      assert s[1..] == a[1..] + pat + b;
    }
  }

  /** An occurrence of "split" starting less than five characters in
      rules out one at the start. */
  lemma NoOverlap(a: string, b: string)
    requires 0 < |a| < 5
    ensures !IsPrefix("split", a + "split" + b)
  {
    var s := a + "split" + b;
    assert s[..5][|a|] == s[|a|] == 's';
    assert "split"[|a|] != 's';
  }

  /** "split" cannot overlap itself, so the scan finds its last
      occurrence. */
  lemma {:induction false} LastPieceAfter(a: string, b: string)
    requires !Contains(b, "split")
    ensures LastPiece(a + "split" + b, "split") == b
    decreases |a|
  {
    var s := a + "split" + b;
    ContainsAfter(a, "split", b);
    if a == [] {
      assert s[5..] == b;
    } else if IsPrefix("split", s) {
      if |a| < 5 {
        NoOverlap(a, b);
      }
      assert s[5..] == a[5..] + "split" + b;
      LastPieceAfter(a[5..], b);
    } else {
      assert s[1..] == a[1..] + "split" + b;
      LastPieceAfter(a[1..], b);
    }
  }

  /** The batch number is the text after the last "split" up to the first
      ".". */
  lemma BatchNumberOf(a: string, c: string, d: string)
    requires !Contains(c + "." + d, "split") && '.' !in c
    ensures BatchNumber(a + "split" + c + "." + d) == c
  {
    assert a + "split" + c + "." + d == a + "split" + (c + "." + d);
    LastPieceAfter(a, c + "." + d);
    IndexOfPast(c, '.', d);
    var b := c + "." + d;
    assert b[..IndexOf(b, '.')] == c;
  }

  /** The picker job is the second `/`-separated part; a name with no `/`
      has none. */
  lemma PickerJobOf(f: string, e: string, g: string)
    requires '/' !in f && '/' !in e
    ensures PickerJob(f) == Err(IndexError)
    ensures PickerJob(f + "/" + e) == Ok(e)
    ensures PickerJob(f + "/" + e + "/" + g) == Ok(e)
  {
    assert Split(f, '/') == [f];
    var s1 := f + "/" + e;
    IndexOfPast(f, '/', e);
    assert s1[..IndexOf(s1, '/')] == f;
    assert s1[IndexOf(s1, '/') + 1..] == e;
    assert Split(s1, '/') == [f] + Split(e, '/') == [f, e];
    var s2 := f + "/" + e + "/" + g;
    var rest := e + "/" + g;
    assert s2 == f + ['/'] + rest;
    IndexOfPast(f, '/', rest);
    assert s2[..IndexOf(s2, '/')] == f;
    assert s2[IndexOf(s2, '/') + 1..] == rest;
    IndexOfPast(e, '/', g);
    assert rest[..IndexOf(rest, '/')] == e;
    assert Split(rest, '/') == [e] + Split(rest[IndexOf(rest, '/') + 1..], '/');
    assert Split(s2, '/') == [f] + Split(rest, '/');
  }

  // ---------------------------------------------------------- equality

  /** The job parsers compared by `__eq__`. */
  datatype JobParser = Class2D(basepath: string) | Class3D(basepath: string)

  /** `Class2D.__eq__` and `Class3D.__eq__`: parsers of the same kind on the
      same base path. */
  predicate ParserEq(self: JobParser, other: JobParser) {
    match self
    case Class2D(p) => other.Class2D? && other.basepath == p
    case Class3D(p) => other.Class3D? && other.basepath == p
  }

  /** The tuple `__hash__` hashes: the qualified class name and the base
      path. */
  function HashKey(self: JobParser): (r: (string, string))
    ensures r.1 == self.basepath
  {
    match self
    case Class2D(p) => ("relion._parser.Class2D", p)
    case Class3D(p) => ("relion._parser.Class3D", p)
  }

  /** `__eq__` agrees with `__hash__`: two parsers are equal exactly when
      the tuples they hash are equal, so equal parsers hash alike, and a 2D
      and a 3D parser of one directory differ. */
  lemma ParserEqHash(a: JobParser, b: JobParser)
    ensures ParserEq(a, b) <==> HashKey(a) == HashKey(b)
    ensures ParserEq(a, b) == ParserEq(b, a)
  {
  }
}
