/** Python values as the modelled code sees them, the error kinds it raises,
    and sequence/string helpers shared by every other module. */
module Values {

  /** A Python value: `None`, an int, a bool, a str, a list or a dict with
      string keys. Objects are never stored in these values. */
  datatype Value =
    | Nil
    | Int(i: int)
    | Bool(b: bool)
    | Str(s: string)
    | List(items: seq<Value>)
    | Dict(d: map<string, Value>)

  /** Python truthiness (`x or y`, `if x:`). */
  predicate Truthy(v: Value) {
    match v
    case Nil => false
    case Int(i) => i != 0
    case Bool(b) => b
    case Str(s) => s != ""
    case List(xs) => xs != []
    case Dict(d) => d != map[]
  }

  /** `d.get(k)`: absent keys read as None. */
  function Get(d: map<string, Value>, k: string): Value {
    if k in d then d[k] else Nil
  }

  datatype Option<T> = None | Some(value: T)

  /** The Python exception classes the modelled code raises. */
  datatype Error =
    | ValueError
    | TypeError
    | KeyError
    | IndexError
    | AttributeError
    | AssertionError
    | RecursionError

  datatype Result<T> = Ok(value: T) | Err(error: Error)

  datatype Outcome = Pass | Fail(error: Error)

  // ---------------------------------------------------------------- sequences

  predicate NoDup<T(==)>(s: seq<T>) {
    forall i, j :: 0 <= i < j < |s| ==> s[i] != s[j]
  }

  /** Every element of `a` also occurs in `b` (Python `all(x in b for x in a)`). */
  predicate AllIn<T(==)>(a: seq<T>, b: seq<T>) {
    forall x :: x in a ==> x in b
  }

  function Count<T(==)>(s: seq<T>, x: T): nat {
    if s == [] then 0 else Count(s[..|s| - 1], x) + (if s[|s| - 1] == x then 1 else 0)
  }

  function Repeat<T>(x: T, n: nat): (r: seq<T>)
    ensures |r| == n && forall k :: 0 <= k < n ==> r[k] == x
  {
    if n == 0 then [] else Repeat(x, n - 1) + [x]
  }

  /** Position of the first occurrence (Python `list.index`). */
  function IndexOf<T(==)>(s: seq<T>, x: T): (k: nat)
    requires x in s
    ensures k < |s| && s[k] == x && forall j :: 0 <= j < k ==> s[j] != x
  {
    if s[0] == x then 0 else 1 + IndexOf(s[1..], x)
  }

  /** Python `list.remove(x)`: drops the first occurrence. */
  function RemoveFirst<T(==)>(s: seq<T>, x: T): seq<T>
    requires x in s
  {
    s[..IndexOf(s, x)] + s[IndexOf(s, x) + 1..]
  }

  /** Removing the first occurrence drops one element and adds none. */
  lemma RemoveFirstSub<T>(s: seq<T>, x: T)
    requires x in s
    ensures |RemoveFirst(s, x)| == |s| - 1
    ensures forall y :: y in RemoveFirst(s, x) ==> y in s
  {
    var k := IndexOf(s, x);
    assert RemoveFirst(s, x) == s[..k] + s[k + 1..];
  }

  lemma NoDupAppend<T>(s: seq<T>, x: T)
    requires NoDup(s) && x !in s
    ensures NoDup(s + [x])
  {
  }

  /** A duplicate-free list of numbers below `n` has at most `n` elements. */
  lemma {:induction false} NoDupBound(s: seq<nat>, n: nat)
    requires NoDup(s) && forall x :: x in s ==> x < n
    ensures |s| <= n
    decreases n
  {
    if s != [] {
      assert s[0] in s;
      if n - 1 in s {
        var k := IndexOf(s, n - 1);
        var t := s[..k] + s[k + 1..];
        assert forall j :: 0 <= j < |t| ==> t[j] == if j < k then s[j] else s[j + 1];
        forall x | x in t
          ensures x < n - 1
        {
          var j :| 0 <= j < |t| && t[j] == x;
          if j < k {
            assert s[j] != s[k] && s[j] in s;
          } else {
            assert s[j + 1] != s[k] && s[j + 1] in s;
          }
        }
        NoDupBound(t, n - 1);
      } else {
        NoDupBound(s, n - 1);
      }
    }
  }

  /** An element of a prefix is an element of the whole. */
  lemma PrefixIn<T>(a: seq<T>, b: seq<T>, x: T)
    requires a <= b && x in a
    ensures x in b
  {
    var i :| 0 <= i < |a| && a[i] == x;
    assert b[i] == x;
  }

  ghost predicate IsSubseq<T>(a: seq<T>, b: seq<T>)
    decreases |b|
  {
    |a| <= |b| && (a == [] || (a[0] == b[0] && IsSubseq(a[1..], b[1..])) || IsSubseq(a, b[1..]))
  }

  lemma {:induction false} IsSubseqRefl<T>(a: seq<T>)
    ensures IsSubseq(a, a)
    decreases |a|
  {
    if a != [] { IsSubseqRefl(a[1..]); }
  }

  // ------------------------------------------------- insertion-ordered dicts

  /** A Python dict as its items in insertion order: `d.get(k)`. */
  function AssocGet<K(==), V>(l: seq<(K, V)>, k: K): Option<V>
  {
    if l == [] then None
    else if l[0].0 == k then Some(l[0].1)
    else AssocGet(l[1..], k)
  }

  function AssocKeys<K, V>(l: seq<(K, V)>): (r: seq<K>)
    ensures |r| == |l|
  {
    if l == [] then [] else [l[0].0] + AssocKeys(l[1..])
  }

  /** `d.values()`, in insertion order. */
  function AssocValues<K, V>(l: seq<(K, V)>): (r: seq<V>)
    ensures |r| == |l|
  {
    if l == [] then [] else [l[0].1] + AssocValues(l[1..])
  }

  /** `d[k] = v`: an existing key keeps its position, a new one goes last. */
  function AssocSet<K(==), V>(l: seq<(K, V)>, k: K, v: V): seq<(K, V)>
  {
    if l == [] then [(k, v)]
    else if l[0].0 == k then [(k, v)] + l[1..]
    else [l[0]] + AssocSet(l[1..], k, v)
  }

  /** After `d[k] = v`, `d[k]` is `v` and every other key reads as before. */
  lemma {:induction false} AssocSetGet<K, V>(l: seq<(K, V)>, k: K, v: V, j: K)
    ensures AssocGet(AssocSet(l, k, v), j) == if j == k then Some(v) else AssocGet(l, j)
  {
    if l != [] && l[0].0 != k {
      var r := [l[0]] + AssocSet(l[1..], k, v);
      assert r[1..] == AssocSet(l[1..], k, v);
      AssocSetGet(l[1..], k, v, j);
    }
  }

  /** A key that no item carries is absent. */
  lemma {:induction false} AssocGetNone<K, V>(l: seq<(K, V)>, k: K)
    requires forall i :: 0 <= i < |l| ==> l[i].0 != k
    ensures AssocGet(l, k) == None
  {
    if l != [] {
      AssocGetNone(l[1..], k);
    }
  }

  /** `d[k] = v` for an absent key appends the item. */
  lemma {:induction false} AssocSetNew<K, V>(l: seq<(K, V)>, k: K, v: V)
    requires forall i :: 0 <= i < |l| ==> l[i].0 != k
    ensures AssocSet(l, k, v) == l + [(k, v)]
  {
    if l != [] {
      AssocSetNew(l[1..], k, v);
      assert [l[0]] + (l[1..] + [(k, v)]) == l + [(k, v)];
    }
  }

  /** `d[k] = v` keeps the key order, appending `k` only when it is new. */
  lemma {:induction false} AssocSetKeys<K, V>(l: seq<(K, V)>, k: K, v: V)
    ensures AssocGet(l, k).Some? ==> AssocKeys(AssocSet(l, k, v)) == AssocKeys(l)
    ensures AssocGet(l, k).None? ==> AssocKeys(AssocSet(l, k, v)) == AssocKeys(l) + [k]
  {
    if l != [] && l[0].0 != k {
      var r := [l[0]] + AssocSet(l[1..], k, v);
      assert r[1..] == AssocSet(l[1..], k, v);
      AssocSetKeys(l[1..], k, v);
      assert AssocKeys(r) == [l[0].0] + AssocKeys(r[1..]);
    }
  }

  // ---------------------------------------------------------- list indexing

  /** The position `lst[i]` denotes in a list of length `n`; negative indices
      count from the end, and None stands for IndexError. */
  function PyIndex(n: nat, i: int): (r: Option<nat>)
    ensures r.Some? <==> -(n as int) <= i < n
    ensures r.Some? ==> r.value < n && (r.value == i || r.value == n + i)
  {
    if 0 <= i < n then Some(i) else if -(n as int) <= i < 0 then Some(n + i) else None
  }

  // ------------------------------------------------------------------ strings

  predicate IsPrefix(p: string, s: string) {
    |p| <= |s| && s[..|p|] == p
  }

  predicate IsSuffix(p: string, s: string) {
    |p| <= |s| && s[|s| - |p|..] == p
  }

  /** `pat in s` for strings. */
  predicate Contains(s: string, pat: string)
    decreases |s|
  {
    IsPrefix(pat, s) || (s != [] && Contains(s[1..], pat))
  }

  /** Python `s.split(sep)` for a one-character separator. */
  function Split(s: string, sep: char): (r: seq<string>)
    ensures |r| >= 1
    decreases |s|
  {
    if sep in s then
      var k := IndexOf(s, sep);
      [s[..k]] + Split(s[k + 1..], sep)
    else [s]
  }

  /** Python `sep.join(parts)`. */
  function Join(parts: seq<string>, sep: char): string
    requires |parts| >= 1
    decreases |parts|
  {
    if |parts| == 1 then parts[0] else parts[0] + [sep] + Join(parts[1..], sep)
  }

  /** One step of `Split` past the first separator. */
  lemma SplitAt(s: string, sep: char)
    requires sep in s
    ensures Split(s, sep) == [s[..IndexOf(s, sep)]] + Split(s[IndexOf(s, sep) + 1..], sep)
  {
  }

  /** Splitting and re-joining on the same separator gives the string back. */
  lemma {:induction false} JoinSplit(s: string, sep: char)
    ensures Join(Split(s, sep), sep) == s
    decreases |s|
  {
    if sep in s {
      var k := IndexOf(s, sep);
      var rest := s[k + 1..];
      var ps := Split(rest, sep);
      SplitAt(s, sep);
      assert ([s[..k]] + ps)[1..] == ps;
      assert Join([s[..k]] + ps, sep) == s[..k] + [sep] + Join(ps, sep);
      JoinSplit(rest, sep);
      assert s == s[..k] + [sep] + rest;
    }
  }

  /** No piece of a split contains the separator. */
  lemma {:induction false} SplitPiecesFree(s: string, sep: char)
    ensures forall p :: p in Split(s, sep) ==> sep !in p
    decreases |s|
  {
    if sep in s {
      var k := IndexOf(s, sep);
      SplitPiecesFree(s[k + 1..], sep);
    }
  }

  /** The first `x` in `a + [x] + b` sits right after `a` when `a` has none. */
  lemma IndexOfPast<T>(a: seq<T>, x: T, b: seq<T>)
    requires x !in a
    ensures x in a + [x] + b && IndexOf(a + [x] + b, x) == |a|
  {
    var s := a + [x] + b;
    assert s[|a|] == x;
    assert forall j :: 0 <= j < |a| ==> s[j] == a[j];
  }

  /** Splitting `Join(parts, sep)` recovers `parts` when no part contains
      the separator. */
  lemma {:induction false} SplitJoin(parts: seq<string>, sep: char)
    requires |parts| >= 1
    requires forall p :: p in parts ==> sep !in p
    ensures Split(Join(parts, sep), sep) == parts
    decreases |parts|
  {
    if |parts| > 1 {
      var p0 := parts[0];
      var rest := Join(parts[1..], sep);
      var s := p0 + [sep] + rest;
      assert s == Join(parts, sep);
      assert parts[0] in parts;
      IndexOfPast(p0, sep, rest);
      SplitAt(s, sep);
      assert s[..|p0|] == p0 && s[|p0| + 1..] == rest;
      SplitJoin(parts[1..], sep);
      assert [p0] + parts[1..] == parts;
    } else {
      assert parts[0] in parts;
      assert parts == [parts[0]];
    }
  }

  /** The characters Python's `str.isspace()` accepts, which `str.split()`
      and `str.strip()` treat as whitespace: the ASCII controls tab to
      carriage return and the separators 1C-1F, the space, NEL, the
      no-break space, and the Unicode spaces and line/paragraph separators. */
  predicate IsSpace(c: char) {
    ('\t' <= c <= '\r') || ('\U{1c}' <= c <= '\U{1f}') || c == ' ' || c == '\U{85}' || c == '\U{a0}'
    || c == '\U{1680}' || ('\U{2000}' <= c <= '\U{200a}') || c == '\U{2028}' || c == '\U{2029}'
    || c == '\U{202f}' || c == '\U{205f}' || c == '\U{3000}'
  }

  predicate IsDigit(c: char) {
    '0' <= c <= '9'
  }

  /** `str.isnumeric()` on ASCII text: non-empty and all digits. */
  predicate IsNumeric(s: string) {
    s != [] && forall k :: 0 <= k < |s| ==> IsDigit(s[k])
  }

  function DigitValue(c: char): (d: nat)
    requires IsDigit(c)
    ensures d < 10
  {
    c as int - '0' as int
  }

  /** The value of a string of decimal digits. */
  function DigitsValue(s: string): nat
    requires forall k :: 0 <= k < |s| ==> IsDigit(s[k])
  {
    if s == [] then 0 else 10 * DigitsValue(s[..|s| - 1]) + DigitValue(s[|s| - 1])
  }

  /** `str.strip()`. */
  function Strip(s: string): (r: string)
    ensures |r| <= |s|
    ensures r != [] ==> !IsSpace(r[0]) && !IsSpace(r[|r| - 1])
  {
    if s != [] && IsSpace(s[0]) then Strip(s[1..])
    else if s != [] && IsSpace(s[|s| - 1]) then Strip(s[..|s| - 1])
    else s
  }

  /** `str.split()` with no argument: maximal runs of non-space characters. */
  function Tokens(s: string): (r: seq<string>)
    ensures forall t :: t in r ==> t != [] && forall k :: 0 <= k < |t| ==> !IsSpace(t[k])
    decreases |s|
  {
    if s == [] then []
    else if IsSpace(s[0]) then Tokens(s[1..])
    else
      var n := WordLength(s);
      [s[..n]] + Tokens(s[n..])
  }

  /** Length of the leading run of non-space characters. */
  function WordLength(s: string): (n: nat)
    ensures n <= |s|
    ensures forall k :: 0 <= k < n ==> !IsSpace(s[k])
    ensures n < |s| ==> IsSpace(s[n])
    ensures s != [] && !IsSpace(s[0]) ==> n > 0
  {
    if s == [] || IsSpace(s[0]) then 0 else 1 + WordLength(s[1..])
  }

  /** The characters of `s` that are not whitespace, in order. */
  function NonSpace(s: string): string
    decreases |s|
  {
    if s == [] then [] else (if IsSpace(s[0]) then [] else [s[0]]) + NonSpace(s[1..])
  }

  /** The words `ws` written one after the other. */
  function Concat(ws: seq<string>): string {
    if ws == [] then [] else ws[0] + Concat(ws[1..])
  }

  /** The characters of a leading word are all kept by `NonSpace`. */
  lemma {:induction false} NonSpaceWord(s: string, n: nat)
    requires n <= |s| && forall k :: 0 <= k < n ==> !IsSpace(s[k])
    ensures NonSpace(s) == s[..n] + NonSpace(s[n..])
    decreases n
  {
    if n > 0 {
      NonSpaceWord(s[1..], n - 1);
      assert s[1..][..n - 1] == s[1..n];
      assert s[1..][n - 1..] == s[n..];
      assert s[..n] == [s[0]] + s[1..n];
    }
  }

  /** `str.split()` loses nothing but whitespace: its words, written one
      after the other, are exactly the non-whitespace characters of `s`. */
  lemma {:induction false} TokensCover(s: string)
    ensures Concat(Tokens(s)) == NonSpace(s)
    decreases |s|
  {
    if s != [] {
      if IsSpace(s[0]) {
        TokensCover(s[1..]);
      } else {
        var n := WordLength(s);
        TokensCover(s[n..]);
        NonSpaceWord(s, n);
        assert Tokens(s) == [s[..n]] + Tokens(s[n..]);
        assert ([s[..n]] + Tokens(s[n..]))[1..] == Tokens(s[n..]);
      }
    }
  }

  /** Python slicing `s[a:b]` with non-negative bounds, clamped to the string. */
  function Slice(s: string, a: nat, b: nat): (r: string)
    ensures |r| <= |s|
  {
    var hi := if b <= |s| then b else |s|;
    var lo := if a <= hi then a else hi;
    s[lo..hi]
  }

  // ------------------------------------------------- gathering results

  /** The values of the results `rs` joined in order; the first failure
      among them is the answer. */
  function Gather<T>(rs: seq<Result<seq<T>>>): (r: Result<seq<T>>)
    decreases |rs|
  {
    if rs == [] then Ok([])
    else
      match Gather(rs[..|rs| - 1])
      case Err(e) => Err(e)
      case Ok(ms) =>
        match rs[|rs| - 1]
        case Err(e) => Err(e)
        case Ok(m) => Ok(ms + m)
  }

  /** Gathering fails exactly when one of the results does, and then with
      the error of the first that does. */
  lemma {:induction false} GatherFirstFailure<T>(rs: seq<Result<seq<T>>>)
    ensures Gather(rs).Ok? <==> forall k :: 0 <= k < |rs| ==> rs[k].Ok?
    ensures Gather(rs).Err? ==>
      exists k :: 0 <= k < |rs| && rs[k] == Err(Gather(rs).error) && forall j :: 0 <= j < k ==> rs[j].Ok?
    decreases |rs|
  {
    if rs != [] {
      var n := |rs| - 1;
      GatherFirstFailure(rs[..n]);
      assert forall k :: 0 <= k < n ==> rs[..n][k] == rs[k];
      if Gather(rs[..n]).Err? {
        var k :| 0 <= k < n && rs[..n][k] == Err(Gather(rs[..n]).error) && forall j :: 0 <= j < k ==> rs[..n][j].Ok?;
        assert rs[k] == Err(Gather(rs).error) && forall j :: 0 <= j < k ==> rs[j].Ok?;
      } else if rs[n].Err? {
        assert forall j :: 0 <= j < n ==> rs[j].Ok?;
      }
    }
  }

  /** When every result went through, the gathered values are as many as
      the counts `ls` have elements together. */
  lemma {:induction false} GatherLength<T, U>(rs: seq<Result<seq<T>>>, ls: seq<seq<U>>)
    requires |ls| == |rs| && forall k :: 0 <= k < |rs| ==> rs[k].Ok? ==> |rs[k].value| == |ls[k]|
    ensures Gather(rs).Ok? ==> |Gather(rs).value| == TotalLength(ls)
    decreases |rs|
  {
    if rs != [] {
      var n := |rs| - 1;
      assert forall k :: 0 <= k < n ==> rs[..n][k] == rs[k] && ls[..n][k] == ls[k];
      GatherLength(rs[..n], ls[..n]);
    }
  }

  /** The number of elements in all the lists. */
  function TotalLength<U>(ls: seq<seq<U>>): nat
    decreases |ls|
  {
    if ls == [] then 0 else TotalLength(ls[..|ls| - 1]) + |ls[|ls| - 1]|
  }

  /** One more result gathered. */
  lemma GatherStep<T>(rs: seq<Result<seq<T>>>, k: nat, ms: seq<T>)
    requires k < |rs| && Gather(rs[..k]) == Ok(ms)
    ensures rs[k].Err? ==> Gather(rs[..k + 1]) == Err(rs[k].error)
    ensures rs[k].Ok? ==> Gather(rs[..k + 1]) == Ok(ms + rs[k].value)
  {
    assert rs[..k + 1][..k] == rs[..k];
  }

  /** A failure among the first results is the failure of them all. */
  lemma {:induction false} GatherPrefix<T>(rs: seq<Result<seq<T>>>, k: nat)
    requires k <= |rs| && Gather(rs[..k]).Err?
    ensures Gather(rs) == Gather(rs[..k])
    decreases |rs| - k
  {
    if k < |rs| {
      assert rs[..k + 1][..k] == rs[..k];
      GatherPrefix(rs, k + 1);
    } else {
      assert rs[..k] == rs;
    }
  }
}
