/** The in-memory table store: column lists with a primary key, an upsert
    (`add_row`) that matches rows on their unique columns, numbers counter
    columns and merges "append" columns, the per-source `_last_update`
    times that `insert` raises, and the message built from one row. */
module Tables {
  import opened Values

  /** `ProcessID`: a counter handing out successive ids. */
  class ProcessId {
    var id: int

    constructor (start: int)
      ensures id == start
    {
      id := start;
    }

    /** `pid()`: the current id, after which the counter moves on by one. */
    method Next() returns (r: int)
      modifies this
      ensures r == old(id) && id == old(id) + 1
    {
      r := id;
      id := id + 1;
    }
  }

  /** Which `Table` class an object is; `Plain` is the base class, which
      `insert` and `construct_message` do not know. */
  datatype Kind = Plain | MotionCorrection | Ctf | ParticlePicker | ClassificationGroup | Classification | InitialModel

  /** A `unique`, `counters` or `append` argument: None, one column name,
      or a list of them. */
  datatype NameArg = NoNames | OneName(name: string) | NameList(names: seq<string>)

  /** How the constructor stores `unique` and `counters`. */
  function NamesOrNone(a: NameArg): Option<seq<string>> {
    match a
    case NoNames => None
    case OneName(n) => Some([n])
    case NameList(l) => Some(l)
  }

  /** How the constructor stores `append`. */
  function NamesOrEmpty(a: NameArg): seq<string> {
    match a
    case NoNames => []
    case OneName(n) => [n]
    case NameList(l) => l
  }

  /** A table's fixed configuration. */
  datatype Schema = Schema(kind: Kind, columns: seq<string>, primaryKey: string,
                           unique: Option<seq<string>>, counters: Option<seq<string>>, append: seq<string>)

  /** Every name the table looks a column up by is one of its columns, and
      no column is listed twice. */
  ghost predicate WellFormed(s: Schema) {
    && NoDup(s.columns) && s.primaryKey in s.columns
    && (s.unique.Some? ==> forall u :: u in s.unique.value ==> u in s.columns)
    && (s.counters.Some? ==> forall c :: c in s.counters.value ==> c in s.columns)
  }

  /** `_tab`: one list per column. */
  type Columns = map<string, seq<Value>>

  /** The columns are exactly the schema's, all of one length. */
  ghost predicate Fits(s: Schema, tab: Columns) {
    && (forall c :: c in tab <==> c in s.columns)
    && s.primaryKey in tab
    && (forall c :: c in tab ==> |tab[c]| == |tab[s.primaryKey]|)
  }

  function EmptyColumns(columns: seq<string>): (tab: Columns)
    ensures forall c :: c in tab <==> c in columns
    ensures forall c :: c in tab ==> tab[c] == []
  {
    map c | c in columns :: []
  }

  /** What `_last_update` is keyed by: the table itself, or a source name. */
  datatype Source = Own | Key(v: Value)

  // ---------------------------------------------------------- the schemas

  const MotionCorrectionColumns: seq<string> := [
    "motion_correction_id", "auto_proc_program_id", "image_number", "first_frame", "last_frame",
    "dose_per_frame", "dose_weight", "total_motion", "average_motion_per_frame", "drift_plot_full_path",
    "micrograph_full_path", "micrograph_snapshot_full_path", "patches_used_x", "patches_used_y",
    "fft_full_path", "fft_corrected_full_path", "movie_id", "comments"]

  /** The CTF columns as the source spells them, `max_resoltuion` included. */
  const CtfColumnsAsWritten: seq<string> := [
    "ctf_id", "motion_correction_id", "box_size_x", "box_size_y", "min_resolution", "max_resoltuion",
    "min_defocus", "max_defocus", "defocus_step_size", "astigmatism", "astigmatism_angle",
    "estimated_resolution", "estimated_defocus", "amplitude_contrast", "cc_value",
    "fft_theoretical_full_path", "comments"]

  /** The CTF columns with the maximum resolution column named as `insert`
      fills it. */
  const CtfColumns: seq<string> := [
    "ctf_id", "motion_correction_id", "box_size_x", "box_size_y", "min_resolution", "max_resolution",
    "min_defocus", "max_defocus", "defocus_step_size", "astigmatism", "astigmatism_angle",
    "estimated_resolution", "estimated_defocus", "amplitude_contrast", "cc_value",
    "fft_theoretical_full_path", "comments"]

  const ParticlePickerColumns: seq<string> := [
    "particle_picker_id", "program_id", "first_motion_correction_id", "particle_picking_template",
    "particle_diameter", "number_of_particles", "job_string", "micrograph_full_path"]

  const ClassificationGroupColumns: seq<string> := [
    "particle_classification_group_id", "particle_picker_id", "program_id", "type", "batch_number",
    "number_of_particles_per_batch", "number_of_classes_per_batch", "symmetry", "parpick_job_string",
    "job_string"]

  const ClassificationColumns: seq<string> := [
    "particle_classification_id", "particle_classification_group_id", "class_number",
    "class_image_full_path", "particles_per_class", "rotation_accuracy", "translation_accuracy",
    "estimated_resolution", "overall_fourier_completeness", "job_string"]

  const InitialModelColumns: seq<string> := [
    "cryoem_initial_model_id", "resolution", "number_of_particles", "particle_classification_id",
    "ini_model_job_string"]

  /** The configuration each known table class passes to `Table`. */
  const CtfSchema := Schema(Ctf, CtfColumns, "ctf_id", Some(["motion_correction_id"]), None, [])

  function SchemaOf(k: Kind): (s: Schema)
    requires !k.Plain?
    ensures s.kind == k
  {
    match k
    case MotionCorrection =>
      Schema(k, MotionCorrectionColumns, "motion_correction_id", Some(["micrograph_full_path"]), Some(["image_number"]), [])
    case Ctf => CtfSchema
    case ParticlePicker =>
      Schema(k, ParticlePickerColumns, "particle_picker_id", Some(["job_string"]), None, [])
    case ClassificationGroup =>
      Schema(k, ClassificationGroupColumns, "particle_classification_group_id", Some(["job_string"]), None, [])
    case Classification =>
      Schema(k, ClassificationColumns, "particle_classification_id", Some(["job_string", "class_number"]), None, [])
    case InitialModel =>
      Schema(k, InitialModelColumns, "cryoem_initial_model_id", Some(["ini_model_job_string"]), None,
             ["particle_classification_id"])
  }

  // ------------------------------------------------------------- queries

  /** Strictly increasing. */
  predicate Ascending(s: seq<nat>) {
    forall a, b :: 0 <= a < b < |s| ==> s[a] < s[b]
  }

  /** `[i for i, e in enumerate(col) if e == v]`. */
  function Indices(col: seq<Value>, v: Value): (r: seq<nat>)
    ensures forall k :: 0 <= k < |r| ==> r[k] < |col| && col[r[k]] == v
    ensures forall i :: 0 <= i < |col| && col[i] == v ==> i in r
    ensures Ascending(r)
  {
    if col == [] then []
    else
      var front := col[..|col| - 1];
      var r0 := Indices(front, v);
      assert forall i :: 0 <= i < |front| ==> front[i] == col[i];
      r0 + (if col[|col| - 1] == v then [|col| - 1] else [])
  }

  predicate InAll(i: nat, lists: seq<seq<nat>>) {
    forall k :: 0 <= k < |lists| ==> i in lists[k]
  }

  /** The elements of `first` that every list holds, in `first`'s order:
      the intersection `_unique_check` folds over the index lists. */
  function Common(first: seq<nat>, lists: seq<seq<nat>>): (r: seq<nat>)
    ensures forall i :: i in r <==> i in first && InAll(i, lists)
  {
    if first == [] then []
    else
      assert first == [first[0]] + first[1..];
      (if InAll(first[0], lists) then [first[0]] else []) + Common(first[1..], lists)
  }

  /** Filtering an increasing list leaves its first survivor the least. */
  lemma {:induction false} CommonLeast(first: seq<nat>, lists: seq<seq<nat>>)
    requires Ascending(first)
    ensures forall i :: i in Common(first, lists) ==> Common(first, lists)[0] <= i
  {
    if first != [] {
      var rest := first[1..];
      assert Ascending(rest);
      CommonLeast(rest, lists);
      if !InAll(first[0], lists) {
        assert Common(first, lists) == Common(rest, lists);
      } else {
        assert Common(first, lists) == [first[0]] + Common(rest, lists);
        forall i | i in Common(first, lists)
          ensures first[0] <= i
        {
          assert i in first;
          var j :| 0 <= j < |first| && first[j] == i;
          if j > 0 {
            assert first[0] < first[j];
          }
        }
      }
    }
  }

  predicate Disjoint(a: seq<nat>, b: seq<nat>) {
    forall x :: x in a ==> x !in b
  }

  /** The loop over `_unique` breaks: some incoming value is in no row. */
  predicate Breaks(s: Schema, tab: Columns, inv: map<string, Value>, us: seq<string>)
    requires WellFormed(s) && Fits(s, tab) && s.unique == Some(us)
  {
    exists k :: 0 <= k < |us| && Get(inv, us[k]) !in tab[us[k]]
  }

  /** Two of the index lists share no row. */
  predicate SomeDisjoint(uis: seq<seq<nat>>) {
    exists i1, i2 :: 0 <= i1 < |uis| && 0 <= i2 < |uis| && i1 != i2 && Disjoint(uis[i1], uis[i2])
  }

  /** One index list per unique column: the rows holding the incoming value. */
  function UniqueIndices(s: Schema, tab: Columns, inv: map<string, Value>, us: seq<string>): (r: seq<seq<nat>>)
    requires WellFormed(s) && Fits(s, tab) && s.unique == Some(us)
    ensures |r| == |us| && forall k :: 0 <= k < |us| ==> r[k] == Indices(tab[us[k]], Get(inv, us[k]))
  {
    seq(|us|, k requires 0 <= k < |us| => Indices(tab[us[k]], Get(inv, us[k])))
  }

  /** `_unique_check(in_values)`: the primary key of the first row whose
      unique columns all hold the incoming values, else None (Nil). A
      missing `_unique` is the TypeError it catches; an empty `_unique`
      list fails with IndexError. An absent incoming value is None, which
      matches rows holding None. When several rows match, the source picks
      the first element of a Python set of indices; the model picks the
      smallest index. */
  function UniqueCheck(s: Schema, tab: Columns, inv: map<string, Value>): (r: Result<Value>)
    requires WellFormed(s) && Fits(s, tab)
    ensures r.Err? <==> s.unique == Some([])
    ensures r.Err? ==> r.error == IndexError
  {
    match s.unique
    case None => Ok(Nil)
    case Some(us) =>
      if Breaks(s, tab, inv, us) then Ok(Nil)
      else if us == [] then Err(IndexError)
      else
        var uis := UniqueIndices(s, tab, inv, us);
        if SomeDisjoint(uis) then Ok(Nil)
        else
          var ov := Common(uis[0], uis);
          if ov == [] then Ok(Nil)
          else
            assert ov[0] in uis[0];
            Ok(tab[s.primaryKey][ov[0]])
  }

  /** Row `i` holds the incoming value in every unique column. */
  ghost predicate Matches(s: Schema, tab: Columns, inv: map<string, Value>, i: nat)
    requires WellFormed(s) && Fits(s, tab) && s.unique.Some?
  {
    i < |tab[s.primaryKey]| && forall u :: u in s.unique.value ==> tab[u][i] == Get(inv, u)
  }

  lemma MatchesInAll(s: Schema, tab: Columns, inv: map<string, Value>, us: seq<string>, i: nat)
    requires WellFormed(s) && Fits(s, tab) && s.unique == Some(us)
    requires us != []
    ensures InAll(i, UniqueIndices(s, tab, inv, us)) <==> Matches(s, tab, inv, i)
  {
    var uis := UniqueIndices(s, tab, inv, us);
    if Matches(s, tab, inv, i) {
      forall k | 0 <= k < |uis|
        ensures i in uis[k]
      {
        assert us[k] in us;
      }
    }
    if InAll(i, uis) {
      forall u | u in us
        ensures tab[u][i] == Get(inv, u)
      {
        var k :| 0 <= k < |us| && us[k] == u;
        assert i in uis[k];
      }
      assert i in uis[0];
    }
  }

  /** With a unique row matched, `_unique_check` answers with the primary
      key of the first matching row. */
  lemma UniqueCheckFinds(s: Schema, tab: Columns, inv: map<string, Value>, i: nat)
    requires WellFormed(s) && Fits(s, tab) && s.unique.Some? && s.unique.value != []
    requires Matches(s, tab, inv, i) && forall j :: 0 <= j < i ==> !Matches(s, tab, inv, j)
    ensures UniqueCheck(s, tab, inv) == Ok(tab[s.primaryKey][i])
  {
    var us := s.unique.value;
    var uis := UniqueIndices(s, tab, inv, us);
    MatchesInAll(s, tab, inv, us, i);
    forall k | 0 <= k < |us|
      ensures Get(inv, us[k]) in tab[us[k]]
    {
      assert us[k] in us;
    }
    assert !Breaks(s, tab, inv, us);
    assert !SomeDisjoint(uis) by {
      forall i1, i2 | 0 <= i1 < |uis| && 0 <= i2 < |uis|
        ensures !Disjoint(uis[i1], uis[i2])
      {
        assert i in uis[i1] && i in uis[i2];
      }
    }
    assert i in uis[0];
    var ov := Common(uis[0], uis);
    assert i in ov;
    assert ov[0] in ov;
    assert InAll(ov[0], uis);
    MatchesInAll(s, tab, inv, us, ov[0]);
    CommonLeast(uis[0], uis);
    assert ov[0] <= i;
    assert Matches(s, tab, inv, ov[0]);
  }

  /** With no row matched, `_unique_check` answers None. */
  lemma UniqueCheckMisses(s: Schema, tab: Columns, inv: map<string, Value>)
    requires WellFormed(s) && Fits(s, tab) && s.unique.Some? && s.unique.value != []
    requires forall j :: 0 <= j < |tab[s.primaryKey]| ==> !Matches(s, tab, inv, j)
    ensures UniqueCheck(s, tab, inv) == Ok(Nil)
  {
    var us := s.unique.value;
    if !Breaks(s, tab, inv, us) {
      var uis := UniqueIndices(s, tab, inv, us);
      var ov := Common(uis[0], uis);
      if ov != [] {
        assert ov[0] in uis[0];
        MatchesInAll(s, tab, inv, us, ov[0]);
        assert false;
      }
    }
  }

  // ------------------------------------------------------------- add_row

  /** `unique_check or kwargs.get(primary_key)`. */
  function KeyArg(s: Schema, uc: Value, kwargs: map<string, Value>): Value {
    if Truthy(uc) then uc else Get(kwargs, s.primaryKey)
  }

  /** The arguments of a row with no unique match: every counter column
      numbered one past the current length of its column. */
  function Numbered(s: Schema, tab: Columns, kwargs: map<string, Value>): (kw: map<string, Value>)
    requires WellFormed(s) && Fits(s, tab)
  {
    match s.counters
    case None => kwargs
    case Some(cs) => kwargs + map c | c in cs :: Int(|tab[c]| + 1)
  }

  /** The value a new row gets in column `c`; a missing or falsy primary
      key is the id `pid()` hands out. */
  function NewCell(s: Schema, kw: map<string, Value>, c: string, id: int): Value {
    if c == s.primaryKey && !Truthy(Get(kw, c)) then Int(id) else Get(kw, c)
  }

  /** Every column gains the new row's value at its end. */
  function AppendRow(s: Schema, tab: Columns, kw: map<string, Value>, id: int): (t: Columns)
    requires WellFormed(s) && Fits(s, tab)
    ensures Fits(s, t) && |t[s.primaryKey]| == |tab[s.primaryKey]| + 1
    ensures forall c :: c in tab ==> tab[c] <= t[c]
  {
    map c | c in tab :: tab[c] + [NewCell(s, kw, c, id)]
  }

  /** `for n in new: if n not in cur: cur.append(n)`. */
  function AddMissing(cur: seq<Value>, incoming: seq<Value>): (r: seq<Value>)
    ensures cur <= r
    ensures forall x :: x in r <==> x in cur || x in incoming
    ensures forall k :: |cur| <= k < |r| ==> r[k] !in r[..k]
  {
    if incoming == [] then cur
    else
      var p := AddMissing(cur, incoming[..|incoming| - 1]);
      var n := incoming[|incoming| - 1];
      assert forall x :: x in incoming <==> x in incoming[..|incoming| - 1] || x == n by {
        assert incoming == incoming[..|incoming| - 1] + [n];
      }
      if n in p then p
      else
        assert (p + [n])[..|p|] == p;
        assert forall k :: 0 <= k < |p| ==> (p + [n])[..k] == p[..k];
        p + [n]
  }

  /** The value an existing row's cell takes given the incoming value, and
      whether anything changed: an ordinary column takes the incoming value;
      an "append" column collects the values it does not yet hold when
      either side is a list, and ignores an incoming scalar otherwise. */
  function Cell(s: Schema, c: string, cell: Value, incoming: Value): (r: (Value, bool))
    ensures r.1 <==> r.0 != cell
    ensures c !in s.append ==> r.0 == incoming
    ensures c in s.append && cell.List? && incoming.List? ==>
      r.0.List? && cell.items <= r.0.items && forall x :: x in r.0.items <==> x in cell.items || x in incoming.items
    ensures c in s.append && !cell.List? && !incoming.List? ==> r.0 == cell
  {
    if cell == incoming then (cell, false)
    else if c !in s.append then (incoming, true)
    else
      match (cell, incoming)
      case (List(xs), List(ys)) =>
        var m := AddMissing(xs, ys);
        (List(m), m != xs)
      case (List(xs), _) =>
        if incoming in xs then (cell, false) else (List(xs + [incoming]), true)
      case (_, List(ys)) =>
        var m := AddMissing([cell], ys);
        if |m| == 1 then (m[0], false) else (List(m), true)
      case _ => (cell, false)
  }

  /** Every column but the primary key takes `Cell` at row `index`. */
  function UpdateRow(s: Schema, tab: Columns, kw: map<string, Value>, index: nat): (t: Columns)
    requires WellFormed(s) && Fits(s, tab) && index < |tab[s.primaryKey]|
    ensures Fits(s, t) && |t[s.primaryKey]| == |tab[s.primaryKey]|
    ensures t[s.primaryKey] == tab[s.primaryKey]
    ensures forall c, j :: c in tab && 0 <= j < |tab[c]| && j != index ==> t[c][j] == tab[c][j]
  {
    map c | c in tab :: if c == s.primaryKey then tab[c] else tab[c][index := Cell(s, c, tab[c][index], Get(kw, c)).0]
  }

  /** Some column of row `index` changes. */
  ghost predicate RowChanged(s: Schema, tab: Columns, kw: map<string, Value>, index: nat)
    requires WellFormed(s) && Fits(s, tab) && index < |tab[s.primaryKey]|
  {
    exists c :: c in tab && c != s.primaryKey && Cell(s, c, tab[c][index], Get(kw, c)).1
  }

  /** What `add_row` leaves: the columns, the next id of `pid`, and the
      returned key (Nil for None). */
  datatype Upsert = Upsert(tab: Columns, nextId: int, key: Value)

  /** `add_row` appending a row for `key` (Nil: none given). */
  function Inserted(s: Schema, tab: Columns, kw: map<string, Value>, key: Value, id: int): (r: Upsert)
    requires WellFormed(s) && Fits(s, tab)
    ensures Fits(s, r.tab) && |r.tab[s.primaryKey]| == |tab[s.primaryKey]| + 1
    ensures forall c :: c in tab ==> tab[c] <= r.tab[c]
    ensures r.key != Nil && r.tab != tab
    ensures r.nextId == id || r.nextId == id + 1
  {
    var pk := s.primaryKey;
    var t := AppendRow(s, tab, kw, id);
    assert |t[pk]| != |tab[pk]|;
    Upsert(t, if Truthy(Get(kw, pk)) then id else id + 1, if key == Nil then NewCell(s, kw, pk, id) else key)
  }

  /** `add_row` updating the first row whose primary key is `key`. */
  ghost function Updated(s: Schema, tab: Columns, kw: map<string, Value>, key: Value, id: int): (r: Upsert)
    requires WellFormed(s) && Fits(s, tab) && key != Nil && key in tab[s.primaryKey]
    ensures Fits(s, r.tab) && r.tab[s.primaryKey] == tab[s.primaryKey] && r.nextId == id
    ensures r.key == Nil <==> r.tab == tab
    ensures r.key != Nil ==> r.key == key
  {
    var pk := s.primaryKey;
    var index := IndexOf(tab[pk], key);
    var t := UpdateRow(s, tab, kw, index);
    assert RowChanged(s, tab, kw, index) <==> t != tab by {
      if RowChanged(s, tab, kw, index) {
        var c :| c in tab && c != pk && Cell(s, c, tab[c][index], Get(kw, c)).1;
        assert t[c][index] != tab[c][index];
      } else {
        forall c | c in tab
          ensures t[c] == tab[c]
        {
          if c != pk {
            assert !Cell(s, c, tab[c][index], Get(kw, c)).1;
          }
        }
      }
    }
    Upsert(t, id, if RowChanged(s, tab, kw, index) then key else Nil)
  }

  /** `add_row(**kwargs)` on a table holding `tab`, with `pid` at `id`. */
  ghost function AddRowSpec(s: Schema, tab: Columns, kwargs: map<string, Value>, id: int): (r: Result<Upsert>)
    requires WellFormed(s) && Fits(s, tab)
    ensures r.Err? <==> s.unique == Some([])
    ensures r.Ok? ==> Fits(s, r.value.tab)
    ensures r.Ok? ==> (r.value.key == Nil <==> r.value.tab == tab)
    ensures r.Ok? ==> r.value.nextId == id || r.value.nextId == id + 1
    ensures r.Ok? ==>
      || (&& |r.value.tab[s.primaryKey]| == |tab[s.primaryKey]| + 1
          && forall c :: c in tab ==> tab[c] <= r.value.tab[c])
      || (r.value.tab[s.primaryKey] == tab[s.primaryKey] && r.value.nextId == id)
  {
    var uc := UniqueCheck(s, tab, kwargs);
    if uc.Err? then Err(uc.error)
    else
      var key := KeyArg(s, uc.value, kwargs);
      var kw := if uc.value == Nil then Numbered(s, tab, kwargs) else kwargs;
      Ok(Upserted(s, tab, kw, key, id))
  }

  /** The row for `key`: appended when the key is None or new, merged
      into the key's first row otherwise. */
  ghost function Upserted(s: Schema, tab: Columns, kw: map<string, Value>, key: Value, id: int): (r: Upsert)
    requires WellFormed(s) && Fits(s, tab)
    ensures Fits(s, r.tab)
  {
    if key == Nil || key !in tab[s.primaryKey] then Inserted(s, tab, kw, key, id)
    else Updated(s, tab, kw, key, id)
  }

  /** Offering a table without counters a row it already holds, under the
      key it already has, changes nothing and answers None. */
  lemma AddRowSame(s: Schema, tab: Columns, kwargs: map<string, Value>, id: int)
    requires WellFormed(s) && Fits(s, tab) && s.counters.None?
    requires UniqueCheck(s, tab, kwargs).Ok?
    requires var k := KeyArg(s, UniqueCheck(s, tab, kwargs).value, kwargs);
      k != Nil && k in tab[s.primaryKey] &&
      forall c :: c in tab ==> tab[c][IndexOf(tab[s.primaryKey], k)] == Get(kwargs, c)
    ensures AddRowSpec(s, tab, kwargs, id) == Ok(Upsert(tab, id, Nil))
  {
    var uc := UniqueCheck(s, tab, kwargs).value;
    var k := KeyArg(s, uc, kwargs);
    var index := IndexOf(tab[s.primaryKey], k);
    var kw := if uc == Nil then Numbered(s, tab, kwargs) else kwargs;
    assert kw == kwargs;
    assert !RowChanged(s, tab, kw, index);
  }

  /** A row with no unique match has its counter columns numbered one
      past the rows already held. */
  lemma AddRowCounters(s: Schema, tab: Columns, kwargs: map<string, Value>, id: int)
    requires WellFormed(s) && Fits(s, tab) && s.counters.Some?
    requires UniqueCheck(s, tab, kwargs) == Ok(Nil)
    requires var k := Get(kwargs, s.primaryKey); k == Nil || k !in tab[s.primaryKey]
    ensures var r := AddRowSpec(s, tab, kwargs, id);
      r.Ok? && forall c :: c in s.counters.value ==> r.value.tab[c][|tab[s.primaryKey]|] == Int(|tab[s.primaryKey]| + 1)
  {
    var kw := Numbered(s, tab, kwargs);
    var t := AppendRow(s, tab, kw, id);
    forall c | c in s.counters.value
      ensures t[c][|tab[s.primaryKey]|] == Int(|tab[s.primaryKey]| + 1)
    {
      assert kw[c] == Int(|tab[c]| + 1);
      assert t[c] == tab[c] + [NewCell(s, kw, c, id)];
    }
  }

  // ------------------------------------------------ the overlap of index lists

  /** Restricting to rows every list holds does not depend on how the
      lists are grouped. */
  lemma {:induction false} CommonCompose(f: seq<nat>, a: seq<seq<nat>>, b: seq<seq<nat>>)
    ensures Common(Common(f, a), b) == Common(f, a + b)
  {
    if f != [] {
      CommonCompose(f[1..], a, b);
      assert InAll(f[0], a + b) <==> InAll(f[0], a) && InAll(f[0], b) by {
        if InAll(f[0], a) && InAll(f[0], b) {
          forall k | 0 <= k < |a + b|
            ensures f[0] in (a + b)[k]
          {
            if k >= |a| {
              assert (a + b)[k] == b[k - |a|];
            }
          }
        }
        if InAll(f[0], a + b) {
          forall k | 0 <= k < |a|
            ensures f[0] in a[k]
          {
            assert (a + b)[k] == a[k];
          }
          forall k | 0 <= k < |b|
            ensures f[0] in b[k]
          {
            assert (a + b)[|a| + k] == b[k];
          }
        }
      }
      var c := Common(f, a);
      if InAll(f[0], a) {
        assert c == [f[0]] + Common(f[1..], a);
        assert c[1..] == Common(f[1..], a);
      } else {
        assert c == Common(f[1..], a);
      }
    }
  }

  /** Lists that hold the same rows restrict alike. */
  lemma {:induction false} CommonSame(f: seq<nat>, a: seq<seq<nat>>, b: seq<seq<nat>>)
    requires forall i :: InAll(i, a) <==> InAll(i, b)
    ensures Common(f, a) == Common(f, b)
  {
    if f != [] {
      CommonSame(f[1..], a, b);
    }
  }

  /** A list whose every element passes is kept whole. */
  lemma {:induction false} CommonAll(f: seq<nat>, a: seq<seq<nat>>)
    requires forall i :: i in f ==> InAll(i, a)
    ensures Common(f, a) == f
  {
    if f != [] {
      assert f[0] in f;
      assert forall i :: i in f[1..] ==> i in f;
      CommonAll(f[1..], a);
    }
  }

  /** One round of the overlap loop: intersecting with the lists `i` and
      `i + 1` extends the rows checked by list `i + 1`. */
  lemma OverlapStep(uis: seq<seq<nat>>, i: nat)
    requires i + 1 < |uis|
    ensures Common(Common(uis[0], uis[..i + 1]), [uis[i], uis[i + 1]]) == Common(uis[0], uis[..i + 2])
  {
    CommonCompose(uis[0], uis[..i + 1], [uis[i], uis[i + 1]]);
    var l1 := uis[..i + 1] + [uis[i], uis[i + 1]];
    var l2 := uis[..i + 2];
    forall x | true
      ensures InAll(x, l1) <==> InAll(x, l2)
    {
      if InAll(x, l2) {
        assert x in l2[i] && x in l2[i + 1];
        forall k | 0 <= k < |l1|
          ensures x in l1[k]
        {
          if k <= i {
            assert l1[k] == l2[k];
          } else if k == i + 1 {
            assert l1[k] == l2[i];
          } else {
            assert l1[k] == l2[i + 1];
          }
        }
      }
      if InAll(x, l1) {
        forall k | 0 <= k < |l2|
          ensures x in l2[k]
        {
          if k <= i {
            assert l2[k] == l1[k];
          } else {
            assert l2[k] == l1[i + 2];
          }
        }
      }
    }
    CommonSame(uis[0], l1, l2);
  }

  /** The first `i` columns have gained the new row's value, the others
      are as in `t0`. */
  ghost predicate AppendedUpTo(s: Schema, t0: Columns, t: Columns, kw: map<string, Value>, id: int, i: nat)
    requires WellFormed(s) && Fits(s, t0)
  {
    && (forall c :: c in t <==> c in t0)
    && forall j :: 0 <= j < |s.columns| ==>
         t[s.columns[j]] == if j < i then t0[s.columns[j]] + [NewCell(s, kw, s.columns[j], id)] else t0[s.columns[j]]
  }

  /** One round of the new-row loop. */
  lemma AppendStep(s: Schema, t0: Columns, t: Columns, kw: map<string, Value>, id: int, i: nat, v: Value)
    requires WellFormed(s) && Fits(s, t0) && i < |s.columns|
    requires AppendedUpTo(s, t0, t, kw, id, i) && v == NewCell(s, kw, s.columns[i], id)
    ensures s.columns[i] in t
    ensures AppendedUpTo(s, t0, t[s.columns[i] := t[s.columns[i]] + [v]], kw, id, i + 1)
  {
    var c := s.columns[i];
    assert c in s.columns;
    var t1 := t[c := t[c] + [v]];
    forall j | 0 <= j < |s.columns|
      ensures t1[s.columns[j]] == if j < i + 1 then t0[s.columns[j]] + [NewCell(s, kw, s.columns[j], id)] else t0[s.columns[j]]
    {
      if j != i {
        assert s.columns[j] != c;
      }
    }
  }

  /** Columns built one by one that agree with `AppendRow` at every
      column are `AppendRow`. */
  lemma AppendedAll(s: Schema, t0: Columns, t: Columns, kw: map<string, Value>, id: int)
    requires WellFormed(s) && Fits(s, t0)
    requires AppendedUpTo(s, t0, t, kw, id, |s.columns|)
    ensures t == AppendRow(s, t0, kw, id)
  {
    forall c | c in t0
      ensures t[c] == t0[c] + [NewCell(s, kw, c, id)]
    {
      var j :| 0 <= j < |s.columns| && s.columns[j] == c;
    }
  }

  /** The first `i` columns have been merged at row `index`, the others
      are as in `t0`. */
  ghost predicate MergedUpTo(s: Schema, t0: Columns, t: Columns, kw: map<string, Value>, index: nat, i: nat)
    requires WellFormed(s) && Fits(s, t0) && index < |t0[s.primaryKey]|
  {
    && (forall c :: c in t <==> c in t0)
    && forall j :: 0 <= j < |s.columns| ==>
         t[s.columns[j]] == if j < i then MergedColumn(s, t0, kw, index, s.columns[j]) else t0[s.columns[j]]
  }

  /** One round of the update loop at the primary key: nothing changes. */
  lemma MergeStepKey(s: Schema, t0: Columns, t: Columns, kw: map<string, Value>, index: nat, i: nat, changed: bool)
    requires WellFormed(s) && Fits(s, t0) && index < |t0[s.primaryKey]| && i < |s.columns|
    requires MergedUpTo(s, t0, t, kw, index, i) && (changed <==> ChangedBefore(s, t0, kw, index, i))
    requires s.columns[i] == s.primaryKey
    ensures MergedUpTo(s, t0, t, kw, index, i + 1)
    ensures changed <==> ChangedBefore(s, t0, kw, index, i + 1)
  {
    forall j | 0 <= j < |s.columns|
      ensures t[s.columns[j]] == if j < i + 1 then MergedColumn(s, t0, kw, index, s.columns[j]) else t0[s.columns[j]]
    {
      assert s.columns[j] in t0;
    }
    if ChangedBefore(s, t0, kw, index, i + 1) {
      var j :| 0 <= j < i + 1 && s.columns[j] != s.primaryKey &&
        Cell(s, s.columns[j], t0[s.columns[j]][index], Get(kw, s.columns[j])).1;
      assert j != i;
    }
  }

  /** One round of the update loop at another column: its cell in row
      `index` becomes the merged one. */
  lemma MergeStepOther(s: Schema, t0: Columns, t: Columns, kw: map<string, Value>, index: nat, i: nat, changed: bool,
                       v: Value, ch: bool)
    requires WellFormed(s) && Fits(s, t0) && index < |t0[s.primaryKey]| && i < |s.columns|
    requires MergedUpTo(s, t0, t, kw, index, i) && (changed <==> ChangedBefore(s, t0, kw, index, i))
    requires s.columns[i] != s.primaryKey && s.columns[i] in t && index < |t[s.columns[i]]|
    requires (v, ch) == Cell(s, s.columns[i], t[s.columns[i]][index], Get(kw, s.columns[i]))
    ensures MergedUpTo(s, t0, t[s.columns[i] := t[s.columns[i]][index := v]], kw, index, i + 1)
    ensures changed || ch <==> ChangedBefore(s, t0, kw, index, i + 1)
  {
    var c := s.columns[i];
    assert t[c] == t0[c];
    var t1 := t[c := t[c][index := v]];
    forall j | 0 <= j < |s.columns|
      ensures t1[s.columns[j]] == if j < i + 1 then MergedColumn(s, t0, kw, index, s.columns[j]) else t0[s.columns[j]]
    {
      if j != i {
        assert s.columns[j] != c;
      }
    }
    if ChangedBefore(s, t0, kw, index, i + 1) && !ChangedBefore(s, t0, kw, index, i) {
      var j :| 0 <= j < i + 1 && s.columns[j] != s.primaryKey &&
        Cell(s, s.columns[j], t0[s.columns[j]][index], Get(kw, s.columns[j])).1;
      assert j == i;
    }
  }

  /** Columns built one by one that agree with `UpdateRow` at every
      column are `UpdateRow`. */
  lemma UpdatedAll(s: Schema, t0: Columns, t: Columns, kw: map<string, Value>, index: nat)
    requires WellFormed(s) && Fits(s, t0) && index < |t0[s.primaryKey]|
    requires MergedUpTo(s, t0, t, kw, index, |s.columns|)
    ensures t == UpdateRow(s, t0, kw, index)
  {
    forall c | c in t0
      ensures t[c] == MergedColumn(s, t0, kw, index, c)
    {
      var j :| 0 <= j < |s.columns| && s.columns[j] == c;
    }
  }

  /** Column `c` after the update branch has merged row `index`. */
  function MergedColumn(s: Schema, t0: Columns, kw: map<string, Value>, index: nat, c: string): seq<Value>
    requires WellFormed(s) && Fits(s, t0) && index < |t0[s.primaryKey]| && c in t0
  {
    if c != s.primaryKey then t0[c][index := Cell(s, c, t0[c][index], Get(kw, c)).0] else t0[c]
  }

  /** Some column among the first `i` other than the primary key changes
      in row `index`. */
  ghost predicate ChangedBefore(s: Schema, tab: Columns, kw: map<string, Value>, index: nat, i: nat)
    requires WellFormed(s) && Fits(s, tab) && index < |tab[s.primaryKey]| && i <= |s.columns|
  {
    exists j :: 0 <= j < i && s.columns[j] != s.primaryKey &&
      Cell(s, s.columns[j], tab[s.columns[j]][index], Get(kw, s.columns[j])).1
  }

  lemma ChangedBeforeAll(s: Schema, tab: Columns, kw: map<string, Value>, index: nat)
    requires WellFormed(s) && Fits(s, tab) && index < |tab[s.primaryKey]|
    ensures ChangedBefore(s, tab, kw, index, |s.columns|) <==> RowChanged(s, tab, kw, index)
  {
    if RowChanged(s, tab, kw, index) {
      var c :| c in tab && c != s.primaryKey && Cell(s, c, tab[c][index], Get(kw, c)).1;
      var j :| 0 <= j < |s.columns| && s.columns[j] == c;
    }
  }

  // ------------------------------------------------------------- lookups

  /** What `get_row_index` answers: None, one index, or a list of them. */
  datatype RowIndex = NoRow | OneRow(i: nat) | Rows(all: seq<nat>)

  /** `get_row_index(key, value)` on the columns `tab`: None for a None
      value or no match; a key that is not a column is a KeyError, or a
      TypeError when it is unhashable. */
  function RowIndexOf(tab: Columns, key: Value, value: Value): (r: Result<RowIndex>)
    ensures value == Nil ==> r == Ok(NoRow)
    ensures value != Nil && !(key.Str? && key.s in tab) ==> r.Err?
    ensures r.Err? ==> r.error == (if key.List? || key.Dict? then TypeError else KeyError)
    ensures key.Str? && key.s in tab && value != Nil ==> r.Ok? && (r.value.NoRow? <==> value !in tab[key.s])
    ensures r.Ok? && r.value.OneRow? ==>
      (&& key.Str? && key.s in tab
       && r.value.i < |tab[key.s]| && tab[key.s][r.value.i] == value
       && forall j :: 0 <= j < |tab[key.s]| && tab[key.s][j] == value ==> j == r.value.i)
    ensures r.Ok? && r.value.Rows? ==>
      (&& key.Str? && key.s in tab && |r.value.all| >= 2 && Ascending(r.value.all)
       && forall j :: j in r.value.all <==> 0 <= j < |tab[key.s]| && tab[key.s][j] == value)
  {
    if value == Nil then Ok(NoRow)
    else if key.List? || key.Dict? then Err(TypeError)
    else if !key.Str? || key.s !in tab then Err(KeyError)
    else
      var indices := Indices(tab[key.s], value);
      if indices == [] then
        assert forall j :: 0 <= j < |tab[key.s]| ==> tab[key.s][j] != value by {
          forall j | 0 <= j < |tab[key.s]|
            ensures tab[key.s][j] != value
          {
            assert j !in indices;
          }
        }
        Ok(NoRow)
      else if |indices| == 1 then
        assert indices[0] in indices;
        Ok(OneRow(indices[0]))
      else Ok(Rows(indices))
  }

  /** Row `i` as a dictionary from column to value. */
  function RowAt(tab: Columns, i: nat): (row: map<string, Value>)
    requires forall c :: c in tab ==> i < |tab[c]|
  {
    map c | c in tab :: tab[c][i]
  }

  /** `get_row_by_primary_key(value)`: the row whose key is `value`; None
      or several matches index the columns with a non-integer, a
      TypeError. */
  function RowByKey(s: Schema, tab: Columns, value: Value): (r: Result<map<string, Value>>)
    requires WellFormed(s) && Fits(s, tab)
    ensures r.Err? ==> r.error == TypeError
    ensures r.Ok? <==> RowIndexOf(tab, Str(s.primaryKey), value).value.OneRow?
  {
    match RowIndexOf(tab, Str(s.primaryKey), value).value
    case OneRow(i) => Ok(RowAt(tab, i))
    case _ => Err(TypeError)
  }

  /** The `ispyb_command` of each table class's message. */
  function Command(k: Kind): string
    requires !k.Plain?
  {
    match k
    case MotionCorrection => "insert_motion_correction"
    case Ctf => "insert_ctf"
    case ParticlePicker => "insert_particle_picker"
    case ClassificationGroup => "insert_particle_classification_group"
    case Classification => "insert_particle_classification"
    case InitialModel => "insert_cryoem_initial_model"
  }

  /** `construct_message(table, primary_key)`: the row as a dictionary
      with the table's command added; an unknown table is a ValueError. */
  function MessageFor(s: Schema, tab: Columns, key: Value): (r: Result<Value>)
    requires WellFormed(s) && Fits(s, tab)
    ensures s.kind.Plain? ==> r == Err(ValueError)
    ensures !s.kind.Plain? ==> (r.Ok? <==> RowByKey(s, tab, key).Ok?)
    ensures r.Ok? ==> r.value.Dict? && "ispyb_command" in r.value.d
    ensures r.Ok? && "ispyb_command" !in s.columns ==> r.value.d["ispyb_command"] == Str(Command(s.kind))
    ensures r.Ok? ==> forall c :: c in s.columns ==> c in r.value.d && r.value.d[c] == RowByKey(s, tab, key).value[c]
  {
    if s.kind.Plain? then Err(ValueError)
    else
      match RowByKey(s, tab, key)
      case Err(e) => Err(e)
      case Ok(row) => Ok(Dict(map["ispyb_command" := Str(Command(s.kind))] + row))
  }

  /** A strictly ascending list's first element is below its second. */
  lemma AscendingFirstTwo(xs: seq<nat>)
    requires Ascending(xs)
    ensures |xs| >= 2 ==> xs[0] < xs[1]
  {
  }

  /** A key found nowhere in the key column, once appended, is found in
      the new row only. */
  lemma FreshKeyIndex(s: Schema, tab: Columns, kw: map<string, Value>, id: int)
    requires WellFormed(s) && Fits(s, tab)
    requires Truthy(Get(kw, s.primaryKey)) && Get(kw, s.primaryKey) !in tab[s.primaryKey]
    ensures RowIndexOf(AppendRow(s, tab, kw, id), Str(s.primaryKey), Get(kw, s.primaryKey))
      == Ok(OneRow(|tab[s.primaryKey]|))
  {
    var pk := s.primaryKey;
    var k := Get(kw, pk);
    var t := AppendRow(s, tab, kw, id);
    var n := |tab[pk]|;
    assert t[pk] == tab[pk] + [k];
    forall j | 0 <= j < n
      ensures t[pk][j] != k
    {
      assert t[pk][j] == tab[pk][j];
    }
    var indices := Indices(t[pk], k);
    assert n in indices;
    AscendingFirstTwo(indices);
    assert indices == [n];
  }

  /** The appended row holds, column by column, what was offered. */
  lemma FreshRow(s: Schema, tab: Columns, kw: map<string, Value>, id: int)
    requires WellFormed(s) && Fits(s, tab) && Truthy(Get(kw, s.primaryKey))
    ensures RowAt(AppendRow(s, tab, kw, id), |tab[s.primaryKey]|) == map c | c in s.columns :: Get(kw, c)
  {
    var t := AppendRow(s, tab, kw, id);
    var n := |tab[s.primaryKey]|;
    forall c | c in t
      ensures t[c][n] == Get(kw, c)
    {
      assert t[c] == tab[c] + [NewCell(s, kw, c, id)];
    }
  }

  /** Looking up the key of a row just appended under a fresh key finds
      that row, holding what was offered. */
  lemma InsertThenLookup(s: Schema, tab: Columns, kw: map<string, Value>, id: int)
    requires WellFormed(s) && Fits(s, tab)
    requires Truthy(Get(kw, s.primaryKey)) && Get(kw, s.primaryKey) !in tab[s.primaryKey]
    ensures RowIndexOf(Inserted(s, tab, kw, Get(kw, s.primaryKey), id).tab, Str(s.primaryKey), Get(kw, s.primaryKey))
      == Ok(OneRow(|tab[s.primaryKey]|))
    ensures RowByKey(s, Inserted(s, tab, kw, Get(kw, s.primaryKey), id).tab, Get(kw, s.primaryKey))
      == Ok(map c | c in s.columns :: Get(kw, c))
  {
    assert Inserted(s, tab, kw, Get(kw, s.primaryKey), id).tab == AppendRow(s, tab, kw, id);
    FreshKeyIndex(s, tab, kw, id);
    FreshRow(s, tab, kw, id);
  }

  /** The keys `cols[..k]` have been copied from `src` over `m0`. */
  ghost predicate CopiedUpTo(m0: map<string, Value>, src: map<string, Value>, m: map<string, Value>, cols: seq<string>, k: nat)
    requires k <= |cols| && forall c :: c in cols ==> c in src
  {
    && (forall c :: c in m <==> c in m0 || c in cols[..k])
    && forall c :: c in m ==> m[c] == if c in cols[..k] then src[c] else m0[c]
  }

  /** One round of a loop copying `src[cols[k]]`. */
  lemma CopyStep(m0: map<string, Value>, src: map<string, Value>, m: map<string, Value>, cols: seq<string>, k: nat)
    requires k < |cols| && (forall c :: c in cols ==> c in src) && CopiedUpTo(m0, src, m, cols, k)
    ensures cols[k] in src && CopiedUpTo(m0, src, m[cols[k] := src[cols[k]]], cols, k + 1)
  {
    assert cols[k] in cols;
    assert cols[..k + 1] == cols[..k] + [cols[k]];
  }

  /** Once every key is copied the result is `m0` updated by `src`. */
  lemma CopiedAll(m0: map<string, Value>, src: map<string, Value>, m: map<string, Value>, cols: seq<string>)
    requires (forall c :: c in src <==> c in cols) && CopiedUpTo(m0, src, m, cols, |cols|)
    ensures m == m0 + src
  {
    assert cols[..|cols|] == cols;
  }

  // ------------------------------------------------------------- insert

  /** `end_time > _last_update[source]` decides whether the time moves;
      a missing time is always replaced, and comparing None with an int
      is a TypeError. */
  function Raise(last: Option<int>, endTime: Option<int>): (r: Result<Option<int>>)
    ensures r.Err? <==> last.Some? && endTime.None?
    ensures r.Err? ==> r.error == TypeError
    ensures r.Ok? && last.None? ==> r.value == endTime
    ensures r.Ok? && last.Some? ==> r.value.Some? && r.value.value >= last.value
    ensures r.Ok? && endTime.Some? ==> r.value.Some? && r.value.value >= endTime.value
    ensures r.Ok? ==> r.value == last || r.value == endTime
  {
    if last.None? then Ok(endTime)
    else if endTime.None? then Err(TypeError)
    else if endTime.value > last.value then Ok(endTime)
    else Ok(last)
  }

  /** Raising twice to the same time is raising once. */
  lemma RaiseTwice(last: Option<int>, endTime: Option<int>)
    requires Raise(last, endTime).Ok?
    ensures Raise(Raise(last, endTime).value, endTime) == Raise(last, endTime)
  {
  }

  /** Two raises in either order end at the same time. */
  lemma RaiseCommutes(last: Option<int>, e1: int, e2: int)
    ensures Raise(Raise(last, Some(e1)).value, Some(e2)) == Raise(Raise(last, Some(e2)).value, Some(e1))
  {
  }

  /** A list or dictionary cannot key a Python dictionary. */
  predicate Unhashable(source: Source) {
    source.Key? && (source.v.List? || source.v.Dict?)
  }

  /** The `_last_update` step of `insert`: a table that is no known
      table class is a ValueError, an unknown source a KeyError, and the
      source's time is otherwise raised to `endTime`. */
  function Stamped(k: Kind, lu: map<Source, Option<int>>, source: Source, endTime: Option<int>)
    : (r: Result<map<Source, Option<int>>>)
    ensures k.Plain? ==> r == Err(ValueError)
    ensures !k.Plain? && Unhashable(source) ==> r == Err(TypeError)
    ensures !k.Plain? && !Unhashable(source) && source !in lu ==> r == Err(KeyError)
    ensures !k.Plain? && !Unhashable(source) && source in lu ==> (r.Ok? <==> Raise(lu[source], endTime).Ok?)
    ensures r.Ok? ==> source in lu && r.value == lu[source := Raise(lu[source], endTime).value]
  {
    if k.Plain? then Err(ValueError)
    else if Unhashable(source) then Err(TypeError)
    else if source !in lu then Err(KeyError)
    else
      match Raise(lu[source], endTime)
      case Err(e) => Err(e)
      case Ok(t) => Ok(lu[source := t])
  }

  /** The keyword arguments each `insert` adds to `add_row`, with the
      option attribute each is read from. */
  function Extras(k: Kind): seq<(string, string)> {
    match k
    case Plain => []
    case MotionCorrection =>
      [("dose_per_frame", "motioncor_doseperframe"), ("patches_used_x", "motioncor_patches_x"),
       ("patches_used_y", "motioncor_patches_y")]
    case Ctf =>
      [("box_size_x", "ctffind_boxsize"), ("box_size_y", "ctffind_boxsize"), ("min_resolution", "ctffind_minres"),
       ("max_resolution", "ctffind_maxres"), ("min_defocus", "ctffind_defocus_min"),
       ("max_defocus", "ctffind_defocus_max"), ("defocus_step_size", "ctffind_defocus_step")]
    case ParticlePicker => [("particle_picking_template", "cryolo_gmodel")]
    case ClassificationGroup =>
      [("number_of_particles_per_batch", "batch_size"), ("number_of_classes_per_batch", "class2d_nr_classes"),
       ("symmetry", "symmetry")]
    case Classification => []
    case InitialModel => [("resolution", "inimodel_resol_final")]
  }

  lemma ExtrasDistinct(k: Kind)
    ensures DistinctKeywords(Extras(k))
  {
  }

  /** The options the particle picker's diameter is computed from. */
  const DiameterOptions: seq<string> := ["extract_boxsize", "angpix", "motioncor_binning"]

  /** No keyword is named twice (Python's syntax forbids it in a call). */
  predicate DistinctKeywords(pairs: seq<(string, string)>) {
    forall i, j :: 0 <= i < j < |pairs| ==> pairs[i].0 != pairs[j].0
  }

  /** Reading the option attributes; a missing one is an AttributeError. */
  function ReadOptions(opts: map<string, Value>, pairs: seq<(string, string)>): (r: Result<map<string, Value>>)
    requires DistinctKeywords(pairs)
    ensures r.Ok? <==> forall k :: 0 <= k < |pairs| ==> pairs[k].1 in opts
    ensures r.Err? ==> r.error == AttributeError
    ensures r.Ok? ==> forall k :: 0 <= k < |pairs| ==> pairs[k].0 in r.value && r.value[pairs[k].0] == opts[pairs[k].1]
  {
    if pairs == [] then Ok(map[])
    else
      var front := pairs[..|pairs| - 1];
      var last := pairs[|pairs| - 1];
      assert forall k :: 0 <= k < |front| ==> front[k] == pairs[k];
      match ReadOptions(opts, front)
      case Err(e) => Err(e)
      case Ok(m) => if last.1 in opts then Ok(m[last.0 := opts[last.1]]) else Err(AttributeError)
  }

  /** `container[index]` as Python evaluates it on the modelled values. */
  function Subscript(container: Value, index: Value): (r: Result<Value>)
    ensures container.List? && index.Int? && 0 <= index.i < |container.items| ==> r == Ok(container.items[index.i])
    ensures container.List? && index.Int? && !(-|container.items| <= index.i < |container.items|) ==> r == Err(IndexError)
    ensures container.Dict? && index.Str? ==> r == if index.s in container.d then Ok(container.d[index.s]) else Err(KeyError)
    ensures container.Nil? || container.Int? || container.Bool? ==> r == Err(TypeError)
  {
    match container
    case List(xs) =>
      if index.Int? || index.Bool? then
        var i := if index.Int? then index.i else if index.b then 1 else 0;
        match PyIndex(|xs|, i)
        case Some(p) => Ok(xs[p])
        case None => Err(IndexError)
      else Err(TypeError)
    case Str(t) =>
      if index.Int? || index.Bool? then
        var i := if index.Int? then index.i else if index.b then 1 else 0;
        match PyIndex(|t|, i)
        case Some(p) => Ok(Str([t[p]]))
        case None => Err(IndexError)
      else Err(TypeError)
    case Dict(d) =>
      if index.List? || index.Dict? then Err(TypeError)
      else if index.Str? && index.s in d then Ok(d[index.s])
      else Err(KeyError)
    case _ => Err(TypeError)
  }

  /** `kwargs["number_of_particles"] = kwargs["init_model_number_of_particles"][kwargs["init_model_class_num"]]`. */
  function InitialModelParticles(kwargs: map<string, Value>): (r: Result<map<string, Value>>)
    ensures ("init_model_number_of_particles" !in kwargs || "init_model_class_num" !in kwargs) ==> r == Err(KeyError)
    ensures r.Ok? ==>
      && "init_model_number_of_particles" in kwargs && "init_model_class_num" in kwargs
      && Subscript(kwargs["init_model_number_of_particles"], kwargs["init_model_class_num"]).Ok?
      && r.value == kwargs["number_of_particles" :=
           Subscript(kwargs["init_model_number_of_particles"], kwargs["init_model_class_num"]).value]
  {
    if "init_model_number_of_particles" !in kwargs || "init_model_class_num" !in kwargs then Err(KeyError)
    else
      match Subscript(kwargs["init_model_number_of_particles"], kwargs["init_model_class_num"])
      case Err(e) => Err(e)
      case Ok(v) => Ok(kwargs["number_of_particles" := v])
  }

  /** The keyword arguments a table class's `insert` adds, read from the
      options; the particle picker also needs the options its diameter
      comes from. */
  function ExtraArgs(k: Kind, opts: map<string, Value>, diameter: Value): (r: Result<map<string, Value>>)
    ensures r.Ok? <==>
      && (forall j :: 0 <= j < |Extras(k)| ==> Extras(k)[j].1 in opts)
      && (k.ParticlePicker? ==> forall o :: o in DiameterOptions ==> o in opts)
    ensures r.Err? ==> r.error == AttributeError
    ensures r.Ok? ==> forall j :: 0 <= j < |Extras(k)| ==>
      Extras(k)[j].0 in r.value && r.value[Extras(k)[j].0] == opts[Extras(k)[j].1]
    ensures r.Ok? && k.ParticlePicker? ==> "particle_diameter" in r.value && r.value["particle_diameter"] == diameter
  {
    ExtrasDistinct(k);
    match ReadOptions(opts, Extras(k))
    case Err(e) => Err(e)
    case Ok(extra) =>
      if !k.ParticlePicker? then Ok(extra)
      else if exists o :: o in DiameterOptions && o !in opts then Err(AttributeError)
      else Ok(extra["particle_diameter" := diameter])
  }

  /** `f(**base, **extra)`: a keyword named by both is a TypeError. */
  function JoinKeywords(base: map<string, Value>, extra: map<string, Value>): (r: Result<map<string, Value>>)
    ensures r.Err? <==> exists x :: x in extra && x in base
    ensures r.Err? ==> r.error == TypeError
    ensures r.Ok? ==> forall x :: x in r.value <==> x in base || x in extra
    ensures r.Ok? ==> forall x :: x in base ==> x !in extra && r.value[x] == base[x]
    ensures r.Ok? ==> forall x :: x in extra ==> r.value[x] == extra[x]
  {
    if exists x :: x in extra && x in base then Err(TypeError)
    else Ok(base + extra)
  }

  /** The keyword arguments `insert` passes to `add_row`: the table's extras
      joined with the caller's; naming one twice is a TypeError. */
  function InsertArgs(k: Kind, opts: map<string, Value>, diameter: Value, kwargs: map<string, Value>): (r: Result<map<string, Value>>)
    ensures r.Ok? ==> forall x :: x in kwargs && !(k.InitialModel? && x == "number_of_particles") ==> x in r.value && r.value[x] == kwargs[x]
    ensures r.Ok? ==> forall j :: 0 <= j < |Extras(k)| ==>
      && Extras(k)[j].0 !in kwargs && Extras(k)[j].1 in opts
      && Extras(k)[j].0 in r.value && r.value[Extras(k)[j].0] == opts[Extras(k)[j].1]
    ensures r.Ok? && k.ParticlePicker? ==> "particle_diameter" in r.value && r.value["particle_diameter"] == diameter
    ensures r.Err? && (forall j :: 0 <= j < |Extras(k)| ==> Extras(k)[j].1 in opts) && !k.InitialModel? && !k.ParticlePicker? ==>
      r.error == TypeError
  {
    var base := if k.InitialModel? then InitialModelParticles(kwargs) else Ok(kwargs);
    if base.Err? then Err(base.error)
    else
      match ExtraArgs(k, opts, diameter)
      case Err(e) => Err(e)
      case Ok(extra) => JoinKeywords(base.value, extra)
  }

  /** What `add_row` and `insert` leave: the columns, the update times,
      the next id of `pid` and the answer. */
  datatype After = After(tab: Columns, lastUpdate: map<Source, Option<int>>, nextId: int, result: Result<Value>)

  /** `add_row(**kwargs)` as a whole: an error leaves everything as it
      was; otherwise the upsert's columns, id and answer. */
  ghost function RowAdded(s: Schema, tab: Columns, lu: map<Source, Option<int>>, kwargs: map<string, Value>, id: int)
    : (a: After)
    requires WellFormed(s) && Fits(s, tab)
    ensures Fits(s, a.tab) && a.lastUpdate == lu
    ensures a.result.Err? <==> AddRowSpec(s, tab, kwargs, id).Err?
    ensures a.result.Err? ==> a.tab == tab && a.nextId == id
  {
    match AddRowSpec(s, tab, kwargs, id)
    case Err(e) => After(tab, lu, id, Err(e))
    case Ok(u) => After(u.tab, lu, u.nextId, Ok(u.key))
  }

  /** `insert(table, end_time, source, relion_options, **kwargs)`: an
      unknown table is a ValueError and an unknown source a KeyError;
      otherwise the source's update time is raised before the arguments
      are built, and the row is then added. */
  ghost function InsertSpec(s: Schema, tab: Columns, lu: map<Source, Option<int>>, id: int, endTime: Option<int>,
                            source: Source, opts: map<string, Value>, diameter: Value, kwargs: map<string, Value>): (a: After)
    requires WellFormed(s) && Fits(s, tab)
    ensures Fits(s, a.tab)
    ensures s.kind.Plain? ==> a == After(tab, lu, id, Err(ValueError))
    ensures !s.kind.Plain? && !Unhashable(source) && source !in lu ==> a == After(tab, lu, id, Err(KeyError))
    ensures forall x :: x in a.lastUpdate <==> x in lu
    ensures forall x :: x in lu && x != source ==> a.lastUpdate[x] == lu[x]
    ensures source in lu && lu[source].Some? ==> a.lastUpdate[source].Some? && a.lastUpdate[source].value >= lu[source].value
    ensures a.result.Ok? ==> source in lu && Raise(lu[source], endTime).Ok? && a.lastUpdate[source] == Raise(lu[source], endTime).value
  {
    match Stamped(s.kind, lu, source, endTime)
    case Err(e) => After(tab, lu, id, Err(e))
    case Ok(lu2) =>
      match InsertArgs(s.kind, opts, diameter, kwargs)
      case Err(e) => After(tab, lu2, id, Err(e))
      case Ok(args) => RowAdded(s, tab, lu2, args, id)
  }

  // ------------------------------------------------------- the CTF column

  /** The CTF configuration as the source writes it. */
  const CtfSchemaAsWritten: Schema := Schema(Ctf, CtfColumnsAsWritten, "ctf_id", Some(["motion_correction_id"]), None, [])

  lemma CtfAsWrittenWellFormed()
    ensures WellFormed(CtfSchemaAsWritten)
  {
    assert NoDup(CtfColumnsAsWritten);
  }

  /** A keyword that is no column never reaches a new row. */
  lemma AppendIgnores(s: Schema, tab: Columns, kw: map<string, Value>, id: int, x: string)
    requires WellFormed(s) && Fits(s, tab) && x !in s.columns
    ensures x !in AppendRow(s, tab, kw, id)
    ensures AppendRow(s, tab, kw, id) == AppendRow(s, tab, kw - {x}, id)
  {
    forall c | c in tab
      ensures NewCell(s, kw, c, id) == NewCell(s, kw - {x}, c, id)
    {
      assert c != x;
    }
  }

  /** A new row holds the offered value in every column but the key. */
  lemma AppendHolds(s: Schema, tab: Columns, kw: map<string, Value>, id: int, c: string)
    requires WellFormed(s) && Fits(s, tab) && c in s.columns && c != s.primaryKey
    ensures AppendRow(s, tab, kw, id)[c][|tab[s.primaryKey]|] == Get(kw, c)
  {
    assert AppendRow(s, tab, kw, id)[c] == tab[c] + [NewCell(s, kw, c, id)];
  }

  /** With the column spelled `max_resoltuion`, the maximum resolution
      that `insert` passes as `max_resolution` never reaches the table: a
      new row is the same whether or not it was given. */
  lemma CtfMaxResolutionLostAsWritten(tab: Columns, kw: map<string, Value>, id: int)
    requires Fits(CtfSchemaAsWritten, tab)
    ensures WellFormed(CtfSchemaAsWritten)
    ensures "max_resolution" !in AppendRow(CtfSchemaAsWritten, tab, kw, id)
    ensures AppendRow(CtfSchemaAsWritten, tab, kw, id) == AppendRow(CtfSchemaAsWritten, tab, kw - {"max_resolution"}, id)
  {
    CtfAsWrittenWellFormed();
    assert "max_resolution" !in CtfColumnsAsWritten;
    AppendIgnores(CtfSchemaAsWritten, tab, kw, id, "max_resolution");
  }

  /** `insert` on a CTF table passes the option `ctffind_maxres` as
      `max_resolution`. */
  lemma CtfInsertPassesMaxResolution(opts: map<string, Value>, diameter: Value, kwargs: map<string, Value>)
    requires InsertArgs(Ctf, opts, diameter, kwargs).Ok?
    ensures "ctffind_maxres" in opts && "max_resolution" in InsertArgs(Ctf, opts, diameter, kwargs).value
    ensures InsertArgs(Ctf, opts, diameter, kwargs).value["max_resolution"] == opts["ctffind_maxres"]
  {
    assert Extras(Ctf)[3] == ("max_resolution", "ctffind_maxres");
  }

  /** With the column named `max_resolution` (the sixth one), a new CTF
      row holds the maximum resolution it is given. */
  lemma CtfMaxResolutionStored(tab: Columns, kw: map<string, Value>, id: int)
    requires Fits(CtfSchema, tab)
    ensures CtfSchema == SchemaOf(Ctf) && WellFormed(CtfSchema)
    ensures CtfColumns[5] == "max_resolution"
    ensures AppendRow(CtfSchema, tab, kw, id)[CtfColumns[5]][|tab[CtfSchema.primaryKey]|] == Get(kw, "max_resolution")
  {
    CtfWellFormed();
    AppendHolds(CtfSchema, tab, kw, id, CtfColumns[5]);
  }

  // ------------------------------------------------------------ the table

  /** `Table`: a schema, the column lists and the `_last_update` times. */
  class Table {
    const schema: Schema
    var tab: Columns
    var lastUpdate: map<Source, Option<int>>

    ghost predicate Valid()
      reads this
    {
      WellFormed(schema) && Fits(schema, tab)
    }

    /** `for c in self.columns: self._tab[c] = []`. */
    static method EmptyTab(columns: seq<string>) returns (t: Columns)
      ensures t == EmptyColumns(columns)
    {
      t := map[];
      var i := 0;
      while i < |columns|
        invariant 0 <= i <= |columns|
        invariant t == EmptyColumns(columns[..i])
      {
        assert forall c :: c in columns[..i + 1] <==> c in columns[..i] || c == columns[i] by {
          assert columns[..i + 1] == columns[..i] + [columns[i]];
        }
        t := t[columns[i] := []];
        i := i + 1;
      }
      assert columns[..i] == columns;
    }

    /** `Table(columns, primary_key, unique, counters, append)`: every
        column empty, a single name wrapped into a list, and the table's own
        update time 0. */
    constructor (columns: seq<string>, primaryKey: string, unique: NameArg, counters: NameArg, append: NameArg)
      requires WellFormed(Schema(Plain, columns, primaryKey, NamesOrNone(unique), NamesOrNone(counters), NamesOrEmpty(append)))
      ensures schema == Schema(Plain, columns, primaryKey, NamesOrNone(unique), NamesOrNone(counters), NamesOrEmpty(append))
      ensures Valid() && tab == EmptyColumns(columns) && lastUpdate == map[Own := Some(0)]
    {
      var t := Table.EmptyTab(columns);
      schema := Schema(Plain, columns, primaryKey, NamesOrNone(unique), NamesOrNone(counters), NamesOrEmpty(append));
      tab := t;
      lastUpdate := map[Own := Some(0)];
    }

    /** `MotionCorrectionTable()`, `CTFTable()` and the other table classes. */
    constructor Of(k: Kind)
      requires !k.Plain?
      ensures schema == SchemaOf(k)
      ensures Valid() && tab == EmptyColumns(SchemaOf(k).columns) && lastUpdate == map[Own := Some(0)]
    {
      SchemasWellFormed(k);
      var t := Table.EmptyTab(SchemaOf(k).columns);
      schema := SchemaOf(k);
      tab := t;
      lastUpdate := map[Own := Some(0)];
    }

    /** The first loop of `_unique_check`: one index list per unique
        column, or None where it breaks at a value no row holds. */
    method CollectIndices(inv: map<string, Value>, us: seq<string>) returns (r: Option<seq<seq<nat>>>)
      requires Valid() && schema.unique == Some(us)
      ensures r.None? <==> Breaks(schema, tab, inv, us)
      ensures r.Some? ==> r.value == UniqueIndices(schema, tab, inv, us)
    {
      var uis: seq<seq<nat>> := [];
      var k := 0;
      while k < |us|
        invariant 0 <= k <= |us| && |uis| == k
        invariant forall j :: 0 <= j < k ==> Get(inv, us[j]) in tab[us[j]]
        invariant forall j :: 0 <= j < k ==> uis[j] == Indices(tab[us[j]], Get(inv, us[j]))
      {
        assert us[k] in us;
        if Get(inv, us[k]) !in tab[us[k]] {
          return None;
        }
        uis := uis + [Indices(tab[us[k]], Get(inv, us[k]))];
        k := k + 1;
      }
      return Some(uis);
    }

    /** The pair loop of `_unique_check`: are two of the lists disjoint? */
    static method AnyDisjoint(uis: seq<seq<nat>>) returns (b: bool)
      ensures b == SomeDisjoint(uis)
    {
      var i1 := 0;
      while i1 < |uis|
        invariant 0 <= i1 <= |uis|
        invariant forall a, c :: 0 <= a < i1 && 0 <= c < |uis| && a != c ==> !Disjoint(uis[a], uis[c])
      {
        var i2 := 0;
        while i2 < |uis|
          invariant 0 <= i2 <= |uis|
          invariant forall c :: 0 <= c < i2 && i1 != c ==> !Disjoint(uis[i1], uis[c])
        {
          if i1 != i2 && Disjoint(uis[i1], uis[i2]) {
            return true;
          }
          i2 := i2 + 1;
        }
        i1 := i1 + 1;
      }
      return false;
    }

    /** The overlap loop of `_unique_check`: the first list cut down to
        the rows every list holds. */
    static method Overlap(uis: seq<seq<nat>>) returns (ov: seq<nat>)
      requires uis != []
      ensures ov == Common(uis[0], uis)
    {
      ov := uis[0];
      CommonAll(uis[0], uis[..1]);
      var i := 0;
      while i < |uis| - 1
        invariant 0 <= i <= |uis| - 1
        invariant ov == Common(uis[0], uis[..i + 1])
      {
        OverlapStep(uis, i);
        ov := Common(ov, [uis[i], uis[i + 1]]);
        i := i + 1;
      }
      assert uis[..i + 1] == uis;
    }

    /** `_unique_check(in_values)`. */
    method CheckUnique(inv: map<string, Value>) returns (r: Result<Value>)
      requires Valid()
      ensures r == UniqueCheck(schema, tab, inv)
    {
      if schema.unique.None? {
        return Ok(Nil);
      }
      var us := schema.unique.value;
      var uis := CollectIndices(inv, us);
      if uis.None? {
        return Ok(Nil);
      }
      var disjoint := AnyDisjoint(uis.value);
      if disjoint {
        return Ok(Nil);
      }
      if uis.value == [] {
        return Err(IndexError);
      }
      var ov := Overlap(uis.value);
      if ov == [] {
        return Ok(Nil);
      }
      assert ov[0] in uis.value[0];
      return Ok(tab[schema.primaryKey][ov[0]]);
    }

    /** `for counter in self._counters: kwargs[counter] = len(...) + 1`,
        with the TypeError of a missing `_counters` caught. */
    method NumberCounters(kwargs: map<string, Value>) returns (kw: map<string, Value>)
      requires Valid()
      ensures kw == Numbered(schema, tab, kwargs)
    {
      kw := kwargs;
      if schema.counters.None? {
        return;
      }
      var cs := schema.counters.value;
      ghost var src := map c | c in cs :: Int(|tab[c]| + 1);
      var k := 0;
      while k < |cs|
        invariant 0 <= k <= |cs|
        invariant CopiedUpTo(kwargs, src, kw, cs, k)
      {
        CopyStep(kwargs, src, kw, cs, k);
        kw := kw[cs[k] := Int(|tab[cs[k]]| + 1)];
        k := k + 1;
      }
      CopiedAll(kwargs, src, kw, cs);
    }

    /** One round of the new-row loop: column `i` gains its cell, the
        key column drawing a fresh id when no true key was given. */
    static method AppendColumnAt(s: Schema, t0: Columns, t: Columns, kw: map<string, Value>, ghost id0: int, i: nat,
                                 pid: ProcessId) returns (t1: Columns)
      requires WellFormed(s) && Fits(s, t0) && i < |s.columns| && AppendedUpTo(s, t0, t, kw, id0, i)
      requires pid.id == if IndexOf(s.columns, s.primaryKey) < i && !Truthy(Get(kw, s.primaryKey)) then id0 + 1 else id0
      modifies pid
      ensures AppendedUpTo(s, t0, t1, kw, id0, i + 1)
      ensures pid.id == if IndexOf(s.columns, s.primaryKey) < i + 1 && !Truthy(Get(kw, s.primaryKey)) then id0 + 1 else id0
    {
      var c := s.columns[i];
      assert c == s.primaryKey <==> i == IndexOf(s.columns, s.primaryKey);
      var v := Get(kw, c);
      if c == s.primaryKey && !Truthy(v) {
        var n := pid.Next();
        v := Int(n);
      }
      AppendStep(s, t0, t, kw, id0, i, v);
      t1 := t[c := t[c] + [v]];
    }

    /** The new-row loop on the columns `t0`. */
    static method NewRow(s: Schema, t0: Columns, kw: map<string, Value>, pid: ProcessId) returns (t: Columns)
      requires WellFormed(s) && Fits(s, t0)
      modifies pid
      ensures t == AppendRow(s, t0, kw, old(pid.id))
      ensures pid.id == if Truthy(Get(kw, s.primaryKey)) then old(pid.id) else old(pid.id) + 1
    {
      ghost var id0 := pid.id;
      t := t0;
      var i := 0;
      while i < |s.columns|
        invariant 0 <= i <= |s.columns|
        invariant AppendedUpTo(s, t0, t, kw, id0, i)
        invariant pid.id == if IndexOf(s.columns, s.primaryKey) < i && !Truthy(Get(kw, s.primaryKey)) then id0 + 1 else id0
      {
        t := AppendColumnAt(s, t0, t, kw, id0, i, pid);
        i := i + 1;
      }
      AppendedAll(s, t0, t, kw, id0);
    }

    /** The new-row branch: one entry appended to every column, the
        primary key's taken from `pid()` when missing or falsy. */
    method AppendNewRow(kw: map<string, Value>, pid: ProcessId)
      requires Valid()
      modifies this, pid
      ensures tab == AppendRow(schema, old(tab), kw, old(pid.id))
      ensures pid.id == if Truthy(Get(kw, schema.primaryKey)) then old(pid.id) else old(pid.id) + 1
      ensures lastUpdate == old(lastUpdate)
    {
      var t := NewRow(schema, tab, kw, pid);
      tab := t;
    }

    /** `for n in incoming: if n not in cur: cur.append(n)`. */
    static method MergeMissing(cur: seq<Value>, incoming: seq<Value>) returns (r: seq<Value>)
      ensures r == AddMissing(cur, incoming)
    {
      r := cur;
      var k := 0;
      while k < |incoming|
        invariant 0 <= k <= |incoming|
        invariant r == AddMissing(cur, incoming[..k])
      {
        assert incoming[..k + 1][..k] == incoming[..k];
        if incoming[k] !in r {
          r := r + [incoming[k]];
        }
        k := k + 1;
      }
      assert incoming[..k] == incoming;
    }

    /** One cell of the update branch, and whether it set `modified`. */
    static method MergeCell(s: Schema, c: string, cell: Value, incoming: Value) returns (v: Value, changed: bool)
      ensures (v, changed) == Cell(s, c, cell, incoming)
    {
      if cell == incoming {
        return cell, false;
      }
      if c !in s.append {
        return incoming, true;
      }
      if cell.List? && incoming.List? {
        var m := MergeMissing(cell.items, incoming.items);
        return List(m), m != cell.items;
      } else if cell.List? {
        if incoming in cell.items {
          return cell, false;
        }
        return List(cell.items + [incoming]), true;
      } else if incoming.List? {
        var m := MergeMissing([cell], incoming.items);
        if |m| == 1 {
          return m[0], false;
        }
        return List(m), true;
      }
      return cell, false;
    }

    /** One round of the update branch's column loop: column `i` merged. */
    static method MergeColumnAt(s: Schema, t0: Columns, t: Columns, kw: map<string, Value>, index: nat, i: nat, changed: bool)
      returns (t1: Columns, changed1: bool)
      requires WellFormed(s) && Fits(s, t0) && index < |t0[s.primaryKey]| && i < |s.columns|
      requires MergedUpTo(s, t0, t, kw, index, i) && (changed <==> ChangedBefore(s, t0, kw, index, i))
      ensures MergedUpTo(s, t0, t1, kw, index, i + 1)
      ensures changed1 <==> ChangedBefore(s, t0, kw, index, i + 1)
    {
      var c := s.columns[i];
      assert c in t0 && t[c] == t0[c];
      if c == s.primaryKey {
        MergeStepKey(s, t0, t, kw, index, i, changed);
        t1, changed1 := t, changed;
      } else {
        var v, ch := MergeCell(s, c, t[c][index], Get(kw, c));
        MergeStepOther(s, t0, t, kw, index, i, changed, v, ch);
        t1 := t[c := t[c][index := v]];
        changed1 := changed || ch;
      }
    }

    /** The column loop of the update branch, on the columns `t0`. */
    static method MergeRow(s: Schema, t0: Columns, kw: map<string, Value>, index: nat) returns (t: Columns, changed: bool)
      requires WellFormed(s) && Fits(s, t0) && index < |t0[s.primaryKey]|
      ensures t == UpdateRow(s, t0, kw, index)
      ensures changed == RowChanged(s, t0, kw, index)
    {
      t := t0;
      changed := false;
      var i := 0;
      while i < |s.columns|
        invariant 0 <= i <= |s.columns|
        invariant MergedUpTo(s, t0, t, kw, index, i)
        invariant changed <==> ChangedBefore(s, t0, kw, index, i)
      {
        t, changed := MergeColumnAt(s, t0, t, kw, index, i, changed);
        i := i + 1;
      }
      UpdatedAll(s, t0, t, kw, index);
      ChangedBeforeAll(s, t0, kw, index);
    }

    /** The update branch: every column but the primary key merged into
        row `index`; the answer says whether anything changed. */
    method UpdateExisting(kw: map<string, Value>, index: nat) returns (changed: bool)
      requires Valid() && index < |tab[schema.primaryKey]|
      modifies this
      ensures tab == UpdateRow(schema, old(tab), kw, index)
      ensures changed == RowChanged(schema, old(tab), kw, index)
      ensures lastUpdate == old(lastUpdate)
    {
      var t;
      t, changed := MergeRow(schema, tab, kw, index);
      tab := t;
    }

    /** `add_row(**kwargs)`: the upsert `AddRowSpec` describes. */
    method AddRow(kwargs: map<string, Value>, pid: ProcessId) returns (r: Result<Value>)
      requires Valid()
      modifies this, pid
      ensures Valid()
      ensures After(tab, lastUpdate, pid.id, r) == RowAdded(schema, old(tab), old(lastUpdate), kwargs, old(pid.id))
    {
      var uc := CheckUnique(kwargs);
      if uc.Err? {
        return Err(uc.error);
      }
      var key := KeyArg(schema, uc.value, kwargs);
      var kw := kwargs;
      if uc.value == Nil {
        kw := NumberCounters(kwargs);
      }
      var k := AppendOrUpdate(kw, key, pid);
      r := Ok(k);
    }

    /** The append-or-update step of `add_row` for the key `key`. */
    method AppendOrUpdate(kw: map<string, Value>, key: Value, pid: ProcessId) returns (k: Value)
      requires Valid()
      modifies this, pid
      ensures Valid() && lastUpdate == old(lastUpdate)
      ensures Upsert(tab, pid.id, k) == Upserted(schema, old(tab), kw, key, old(pid.id))
    {
      var pk := schema.primaryKey;
      if key == Nil || key !in tab[pk] {
        AppendNewRow(kw, pid);
        if key == Nil {
          var col := tab[pk];
          k := if Truthy(Get(kw, pk)) then Get(kw, pk) else col[|col| - 1];
        } else {
          k := key;
        }
      } else {
        var index := IndexOf(tab[pk], key);
        var changed := UpdateExisting(kw, index);
        k := if changed then key else Nil;
      }
    }

    /** `get_row_by_primary_key(value)`. */
    method GetRowByPrimaryKey(value: Value) returns (r: Result<map<string, Value>>)
      requires Valid()
      ensures r == RowByKey(schema, tab, value)
    {
      var ri := RowIndexOf(tab, Str(schema.primaryKey), value);
      if !ri.value.OneRow? {
        return Err(TypeError);
      }
      var row := CopyRow(tab, schema.columns, ri.value.i);
      return Ok(row);
    }

    /** `for c in self.columns: row[c] = self._tab[c][row_index]`. */
    static method CopyRow(tab: Columns, cols: seq<string>, i: nat) returns (row: map<string, Value>)
      requires (forall c :: c in tab <==> c in cols) && forall c :: c in tab ==> i < |tab[c]|
      ensures row == RowAt(tab, i)
    {
      ghost var src := RowAt(tab, i);
      row := map[];
      var k := 0;
      while k < |cols|
        invariant 0 <= k <= |cols|
        invariant CopiedUpTo(map[], src, row, cols, k)
      {
        CopyStep(map[], src, row, cols, k);
        row := row[cols[k] := tab[cols[k]][i]];
        k := k + 1;
      }
      CopiedAll(map[], src, row, cols);
      assert map[] + src == src;
    }

    /** `construct_message(table, primary_key)`. */
    method ConstructMessage(key: Value) returns (r: Result<Value>)
      requires Valid()
      ensures r == MessageFor(schema, tab, key)
    {
      if schema.kind.Plain? {
        return Err(ValueError);
      }
      var row := GetRowByPrimaryKey(key);
      if row.Err? {
        return Err(row.error);
      }
      var m0 := map["ispyb_command" := Str(Command(schema.kind))];
      var results := m0;
      var cols := schema.columns;
      var k := 0;
      while k < |cols|
        invariant 0 <= k <= |cols|
        invariant CopiedUpTo(m0, row.value, results, cols, k)
      {
        CopyStep(m0, row.value, results, cols, k);
        results := results[cols[k] := row.value[cols[k]]];
        k := k + 1;
      }
      CopiedAll(m0, row.value, results, cols);
      return Ok(Dict(results));
    }

    /** `insert(self, end_time, source, relion_options, **kwargs)`. */
    method Insert(endTime: Option<int>, source: Source, opts: map<string, Value>, diameter: Value,
                  kwargs: map<string, Value>, pid: ProcessId) returns (r: Result<Value>)
      requires Valid()
      modifies this, pid
      ensures Valid()
      ensures After(tab, lastUpdate, pid.id, r)
        == InsertSpec(schema, old(tab), old(lastUpdate), old(pid.id), endTime, source, opts, diameter, kwargs)
    {
      var lu := Stamped(schema.kind, lastUpdate, source, endTime);
      if lu.Err? {
        return Err(lu.error);
      }
      lastUpdate := lu.value;
      var args := InsertArgs(schema.kind, opts, diameter, kwargs);
      if args.Err? {
        return Err(args.error);
      }
      r := AddRow(args.value, pid);
    }
  }

  /** Every table class names distinct columns that include its key,
      unique and counter columns. */
  lemma SchemasWellFormed(k: Kind)
    requires !k.Plain?
    ensures WellFormed(SchemaOf(k))
  {
    match k
    case MotionCorrection => MotionCorrectionWellFormed();
    case Ctf => CtfWellFormed();
    case ParticlePicker => assert NoDup(ParticlePickerColumns);
    case ClassificationGroup => assert NoDup(ClassificationGroupColumns);
    case Classification => assert NoDup(ClassificationColumns);
    case InitialModel => assert NoDup(InitialModelColumns);
  }

  lemma MotionCorrectionWellFormed()
    ensures WellFormed(SchemaOf(MotionCorrection))
  {
    assert NoDup(MotionCorrectionColumns);
  }

  lemma CtfWellFormed()
    ensures WellFormed(CtfSchema) && SchemaOf(Ctf) == CtfSchema
  {
    assert NoDup(CtfColumns);
  }
}
