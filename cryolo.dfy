/** Helpers of the crYOLO version of the `relion_it` pipeline script: the
    small STAR file reader `load_star`, the record of jobs already set up
    (`getJobName`, `addJob`), the option override `update_from`, the
    `;`- and space-terminated argument strings, and the even box sizes. */
module CryoloRelionIt {
  import opened Values

  // ------------------------------------------------------------ STAR reading

  /** A value of a data block: `_key value` stores one string, a loop
      column a list of strings. */
  datatype StarValue = Single(text: string) | Column(cells: seq<string>)

  /** A data block, as an insertion-ordered dict. */
  type Block = seq<(string, StarValue)>

  /** `in_loop`: 0 outside a loop, 1 reading column names, 2 reading rows. */
  type LoopState = x: int | 0 <= x <= 2

  /** The local state of `load_star` between two lines: the datasets, the
      name of the block `current_data` is (None before any `data_` line),
      `current_colnames` and `in_loop`. */
  datatype Reader = Reader(datasets: seq<(string, Block)>, current: Option<string>, colnames: seq<string>, inLoop: LoopState)

  const Start := Reader([], None, [], 0)

  /** The line after `strip()` and the removal of a comment: text from the
      first `#` is dropped unless that `#` is the first character. */
  function Clean(raw: string): (line: string)
    ensures IsPrefix(line, Strip(raw))
    ensures '#' !in Strip(raw) || Strip(raw)[0] == '#' ==> line == Strip(raw)
    ensures '#' in Strip(raw) && Strip(raw)[0] != '#' ==> '#' !in line && 0 < |line| < |Strip(raw)| && Strip(raw)[|line|] == '#'
    ensures line != [] ==> !IsSpace(line[0])
  {
    var s := Strip(raw);
    if '#' in s && IndexOf(s, '#') > 0 then s[..IndexOf(s, '#')] else s
  }

  /** The block `current_data` refers to. */
  function BlockOf(st: Reader): Block {
    match st.current
    case None => []
    case Some(n) =>
      match AssocGet(st.datasets, n)
      case Some(b) => b
      case None => []
  }

  /** `current_data[key] = v`; a TypeError before any `data_` line. */
  function Store(st: Reader, key: string, v: StarValue): Result<Reader> {
    match st.current
    case None => Err(TypeError)
    case Some(n) => Ok(st.(datasets := AssocSet(st.datasets, n, AssocSet(BlockOf(st), key, v))))
  }

  /** `current_data[col].append(e)`. */
  function AppendCell(b: Block, col: string, e: string): Result<Block> {
    match AssocGet<string, StarValue>(b, col)
    case None => Err(KeyError)
    case Some(Single(_)) => Err(AttributeError)
    case Some(Column(cs)) => Ok(AssocSet(b, col, Column(cs + [e])))
  }

  /** The `enumerate` loop of a data row: token `idx` appended to column
      `idx`, in order. */
  function AppendRow(b: Block, cols: seq<string>, elems: seq<string>): Result<Block>
    requires |cols| == |elems|
    decreases |cols|
  {
    if cols == [] then Ok(b)
    else
      match AppendCell(b, cols[0], elems[0])
      case Err(e) => Err(e)
      case Ok(b1) => AppendRow(b1, cols[1..], elems[1..])
  }

  /** A `_` line, given its tokens after the `_`. */
  function Field(st: Reader, elems: seq<string>): Result<Reader> {
    if elems == [] then Err(IndexError)
    else if st.inLoop == 1 then Store(st.(colnames := st.colnames + [elems[0]]), elems[0], Column([]))
    else if |elems| < 2 then Err(IndexError)
    else Store(st, elems[0], Single(elems[1]))
  }

  /** A data row of a loop, given its tokens. */
  function DataRow(st: Reader, elems: seq<string>): Result<Reader> {
    if |elems| != |st.colnames| then Err(AssertionError)
    else if elems == [] then Ok(st)
    else
      match st.current
      case None => Err(TypeError)
      case Some(n) =>
        match AppendRow(BlockOf(st), st.colnames, elems)
        case Err(e) => Err(e)
        case Ok(b) => Ok(st.(datasets := AssocSet(st.datasets, n, b)))
  }

  /** One line of `load_star`. */
  function Step(st: Reader, raw: string): Result<Reader> {
    var line := Clean(raw);
    if line == "" then Ok(st.(inLoop := if st.inLoop == 2 then 0 else st.inLoop))
    else if IsPrefix("data_", line) then
      var name := line[5..];
      Ok(Reader(AssocSet(st.datasets, name, []), Some(name), st.colnames, 0))
    else if IsPrefix("loop_", line) then Ok(st.(colnames := [], inLoop := 1))
    else if IsPrefix("_", line) then Field(st.(inLoop := if st.inLoop == 2 then 0 else st.inLoop), Tokens(line[1..]))
    else if st.inLoop > 0 then DataRow(st.(inLoop := 2), Tokens(line))
    else Ok(st)
  }

  /** The lines read in order from `st`; the first error ends the read. */
  function RunFrom(st: Reader, lines: seq<string>): Result<Reader>
    decreases |lines|
  {
    if lines == [] then Ok(st)
    else
      match Step(st, lines[0])
      case Err(e) => Err(e)
      case Ok(st1) => RunFrom(st1, lines[1..])
  }

  /** `load_star` on the lines of a file. */
  function LoadStar(lines: seq<string>): Result<seq<(string, Block)>> {
    match RunFrom(Start, lines)
    case Err(e) => Err(e)
    case Ok(st) => Ok(st.datasets)
  }

  /** The inner `enumerate` loop of a data row. */
  method AppendRowCells(b0: Block, cols: seq<string>, elems: seq<string>) returns (r: Result<Block>)
    requires |cols| == |elems|
    ensures r == AppendRow(b0, cols, elems)
  {
    var b := b0;
    var idx := 0;
    while idx < |elems|
      invariant 0 <= idx <= |elems|
      invariant AppendRow(b, cols[idx..], elems[idx..]) == AppendRow(b0, cols, elems)
    {
      assert cols[idx..][0] == cols[idx] && cols[idx..][1..] == cols[idx + 1..];
      assert elems[idx..][0] == elems[idx] && elems[idx..][1..] == elems[idx + 1..];
      match AssocGet<string, StarValue>(b, cols[idx]) {
        case None =>
          return Err(KeyError);
        case Some(Single(_)) =>
          return Err(AttributeError);
        case Some(Column(cs)) =>
          b := AssocSet(b, cols[idx], Column(cs + [elems[idx]]));
      }
      idx := idx + 1;
    }
    assert cols[idx..] == [];
    return Ok(b);
  }

  /** The body of the `for line in fh` loop of `load_star`, on its local
      state. */
  method ReadLine(st: Reader, raw: string) returns (r: Result<Reader>)
    ensures r == Step(st, raw)
  {
    var datasets, current, colnames, inLoop := st.datasets, st.current, st.colnames, st.inLoop;
    var line := Strip(raw);
    if '#' in line && IndexOf(line, '#') > 0 {
      line := line[..IndexOf(line, '#')];
    }
    assert line == Clean(raw);
    if line == "" {
      if inLoop == 2 {
        inLoop := 0;
      }
    } else if IsPrefix("data_", line) {
      inLoop := 0;
      var name := line[5..];
      datasets := AssocSet(datasets, name, []);
      current := Some(name);
    } else if IsPrefix("loop_", line) {
      colnames := [];
      inLoop := 1;
    } else if IsPrefix("_", line) {
      if inLoop == 2 {
        inLoop := 0;
      }
      r := ReadField(Reader(datasets, current, colnames, inLoop), Tokens(line[1..]));
      return;
    } else if inLoop > 0 {
      inLoop := 2;
      var elems := Tokens(line);
      if |elems| != |colnames| {
        return Err(AssertionError);
      }
      if elems != [] {
        if current.None? {
          return Err(TypeError);
        }
        var b := AppendRowCells(BlockOf(st), colnames, elems);
        if b.Err? {
          return Err(b.error);
        }
        datasets := AssocSet(datasets, current.value, b.value);
      }
    }
    return Ok(Reader(datasets, current, colnames, inLoop));
  }

  /** A `_` line, given its tokens after the `_`. */
  method ReadField(st: Reader, elems: seq<string>) returns (r: Result<Reader>)
    ensures r == Field(st, elems)
  {
    if elems == [] {
      return Err(IndexError);
    }
    var colnames := st.colnames;
    var v;
    if st.inLoop == 1 {
      colnames := colnames + [elems[0]];
      v := Column([]);
    } else {
      if |elems| < 2 {
        return Err(IndexError);
      }
      v := Single(elems[1]);
    }
    if st.current.None? {
      return Err(TypeError);
    }
    var datasets := AssocSet(st.datasets, st.current.value, AssocSet(BlockOf(st), elems[0], v));
    return Ok(Reader(datasets, st.current, colnames, st.inLoop));
  }

  /** `load_star(filename)`, the file given as its lines. */
  method LoadStarLines(lines: seq<string>) returns (r: Result<seq<(string, Block)>>)
    ensures r == LoadStar(lines)
  {
    var st := Start;
    var i := 0;
    while i < |lines|
      invariant 0 <= i <= |lines|
      invariant RunFrom(st, lines[i..]) == RunFrom(Start, lines)
    {
      assert lines[i..][0] == lines[i] && lines[i..][1..] == lines[i + 1..];
      var next := ReadLine(st, lines[i]);
      if next.Err? {
        return Err(next.error);
      }
      st := next.value;
      i := i + 1;
    }
    assert lines[i..] == [];
    return Ok(st.datasets);
  }

  /** `current_data[col]` is a list. */
  predicate IsColumn(b: Block, col: string) {
    AssocGet(b, col).Some? && AssocGet(b, col).value.Column?
  }

  /** The cells of column `col` (none if it is not a list). */
  function Cells(b: Block, col: string): seq<string> {
    if IsColumn(b, col) then AssocGet(b, col).value.cells else []
  }

  /** `s` differs from `st` only in the block `current_data` refers to. */
  ghost predicate OnlyCurrent(st: Reader, s: Reader) {
    s.current == st.current &&
    forall n :: (st.current.None? || n != st.current.value) ==> AssocGet(s.datasets, n) == AssocGet(st.datasets, n)
  }

  /** A `data_NAME` line opens a new empty block under NAME (replacing
      one of the same name, the others untouched), makes it current and
      leaves loop mode. */
  lemma StepDataBlock(st: Reader, raw: string)
    requires IsPrefix("data_", Clean(raw))
    ensures Step(st, raw).Ok?
    ensures var s := Step(st, raw).value; var name := Clean(raw)[5..];
      s.current == Some(name) && s.inLoop == 0 && s.colnames == st.colnames &&
      AssocGet(s.datasets, name) == Some([]) && BlockOf(s) == [] &&
      forall n :: n != name ==> AssocGet(s.datasets, n) == AssocGet(st.datasets, n)
  {
    var name := Clean(raw)[5..];
    forall n {
      AssocSetGet(st.datasets, name, [], n);
    }
  }

  /** A `loop_` line starts a fresh column list and nothing else. */
  lemma StepLoopHeader(st: Reader, raw: string)
    requires IsPrefix("loop_", Clean(raw))
    ensures Step(st, raw) == Ok(Reader(st.datasets, st.current, [], 1))
  {
    assert Clean(raw)[..5] == "loop_";
  }

  /** A blank line (after comment removal) ends the rows of a loop and
      changes nothing else. */
  lemma StepBlank(st: Reader, raw: string)
    requires Clean(raw) == ""
    ensures Step(st, raw).Ok?
    ensures var s := Step(st, raw).value;
      s.datasets == st.datasets && s.current == st.current && s.colnames == st.colnames &&
      s.inLoop == (if st.inLoop == 2 then 0 else st.inLoop)
  {
  }

  /** A `_` line: right after `loop_` it names a new empty column; else
      `_key value` stores the second token and leaves loop mode. A line
      with no token after `_`, or a key with no value, is an IndexError; a
      `_` line before any `data_` line is a TypeError. */
  lemma StepField(st: Reader, raw: string)
    requires IsPrefix("_", Clean(raw))
    ensures var elems := Tokens(Clean(raw)[1..]);
      elems == [] ==> Step(st, raw) == Err(IndexError)
    ensures var elems := Tokens(Clean(raw)[1..]);
      elems != [] && st.current.None? && (st.inLoop == 1 || |elems| >= 2) ==> Step(st, raw) == Err(TypeError)
    ensures var elems := Tokens(Clean(raw)[1..]);
      |elems| == 1 && st.inLoop != 1 ==> Step(st, raw) == Err(IndexError)
    ensures var elems := Tokens(Clean(raw)[1..]);
      elems != [] && st.current.Some? && st.inLoop == 1 ==>
        Step(st, raw).Ok? && OnlyCurrent(st, Step(st, raw).value) &&
        Step(st, raw).value.inLoop == 1 && Step(st, raw).value.colnames == st.colnames + [elems[0]] &&
        AssocGet(BlockOf(Step(st, raw).value), elems[0]) == Some(Column([])) &&
        forall k :: k != elems[0] ==> AssocGet(BlockOf(Step(st, raw).value), k) == AssocGet(BlockOf(st), k)
    ensures var elems := Tokens(Clean(raw)[1..]);
      |elems| >= 2 && st.current.Some? && st.inLoop != 1 ==>
        Step(st, raw).Ok? && OnlyCurrent(st, Step(st, raw).value) &&
        Step(st, raw).value.inLoop == 0 && Step(st, raw).value.colnames == st.colnames &&
        AssocGet(BlockOf(Step(st, raw).value), elems[0]) == Some(Single(elems[1])) &&
        forall k :: k != elems[0] ==> AssocGet(BlockOf(Step(st, raw).value), k) == AssocGet(BlockOf(st), k)
  {
    var line := Clean(raw);
    assert line[0] == '_';
    assert !IsPrefix("data_", line) && !IsPrefix("loop_", line);
    var elems := Tokens(line[1..]);
    var st0 := st.(inLoop := if st.inLoop == 2 then 0 else st.inLoop);
    assert Step(st, raw) == Field(st0, elems);
    if elems != [] && st.current.Some? {
      var n := st.current.value;
      var v := if st.inLoop == 1 then Column([]) else Single(if |elems| >= 2 then elems[1] else "");
      var b := AssocSet(BlockOf(st), elems[0], v);
      forall m {
        AssocSetGet(st.datasets, n, b, m);
      }
      forall k {
        AssocSetGet(BlockOf(st), elems[0], v, k);
      }
    }
  }

  /** Appending a row to distinct list columns adds token `i` at the end
      of column `i` and touches no other key. */
  lemma {:induction false} AppendRowColumns(b: Block, cols: seq<string>, elems: seq<string>)
    requires |cols| == |elems| && NoDup(cols)
    requires forall i :: 0 <= i < |cols| ==> IsColumn(b, cols[i])
    ensures AppendRow(b, cols, elems).Ok?
    ensures forall i :: 0 <= i < |cols| ==>
      AssocGet(AppendRow(b, cols, elems).value, cols[i]) == Some(Column(Cells(b, cols[i]) + [elems[i]]))
    ensures forall k :: k !in cols ==> AssocGet(AppendRow(b, cols, elems).value, k) == AssocGet(b, k)
    decreases |cols|
  {
    if cols != [] {
      var c := cols[0];
      var b1 := AssocSet(b, c, Column(Cells(b, c) + [elems[0]]));
      assert AppendCell(b, c, elems[0]) == Ok(b1);
      forall k
        ensures AssocGet(b1, k) == if k == c then Some(Column(Cells(b, c) + [elems[0]])) else AssocGet(b, k)
      {
        AssocSetGet(b, c, Column(Cells(b, c) + [elems[0]]), k);
      }
      var rest := cols[1..];
      assert forall i :: 0 <= i < |rest| ==> rest[i] == cols[i + 1] && rest[i] != c;
      AppendRowColumns(b1, rest, elems[1..]);
      var r := AppendRow(b1, rest, elems[1..]).value;
      assert AppendRow(b, cols, elems) == Ok(r);
      assert c !in rest;
      forall i | 0 <= i < |cols|
        ensures AssocGet(r, cols[i]) == Some(Column(Cells(b, cols[i]) + [elems[i]]))
      {
        if i > 0 {
          assert cols[i] == rest[i - 1] && elems[i] == elems[1..][i - 1];
        }
      }
    }
  }

  /** A data row inside a loop: a token count other than the column count
      fails the assertion; otherwise, with distinct list columns, token `i`
      goes to the end of column `i` and the reader is in the row state. A
      line that is none of the special kinds is ignored outside a loop. */
  lemma StepRow(st: Reader, raw: string)
    requires Clean(raw) != "" && !IsPrefix("data_", Clean(raw)) && !IsPrefix("loop_", Clean(raw)) && !IsPrefix("_", Clean(raw))
    ensures st.inLoop == 0 ==> Step(st, raw) == Ok(st)
    ensures st.inLoop > 0 && |Tokens(Clean(raw))| != |st.colnames| ==> Step(st, raw) == Err(AssertionError)
    ensures st.inLoop > 0 && |Tokens(Clean(raw))| == |st.colnames| && st.current.None? ==> Step(st, raw) == Err(TypeError)
    ensures var elems := Tokens(Clean(raw));
      st.inLoop > 0 && |elems| == |st.colnames| && st.current.Some? && NoDup(st.colnames) &&
      (forall i :: 0 <= i < |st.colnames| ==> IsColumn(BlockOf(st), st.colnames[i])) ==>
        Step(st, raw).Ok? && OnlyCurrent(st, Step(st, raw).value) &&
        Step(st, raw).value.inLoop == 2 && Step(st, raw).value.colnames == st.colnames &&
        (forall i :: 0 <= i < |st.colnames| ==>
          AssocGet(BlockOf(Step(st, raw).value), st.colnames[i]) == Some(Column(Cells(BlockOf(st), st.colnames[i]) + [elems[i]]))) &&
        forall k :: k !in st.colnames ==> AssocGet(BlockOf(Step(st, raw).value), k) == AssocGet(BlockOf(st), k)
  {
    var line := Clean(raw);
    var elems := Tokens(line);
    assert elems != [] by {
      assert !IsSpace(line[0]);
    }
    if st.inLoop > 0 && |elems| == |st.colnames| && st.current.Some? && NoDup(st.colnames) &&
      (forall i :: 0 <= i < |st.colnames| ==> IsColumn(BlockOf(st), st.colnames[i]))
    {
      var n := st.current.value;
      AppendRowColumns(BlockOf(st), st.colnames, elems);
      var b := AppendRow(BlockOf(st), st.colnames, elems).value;
      forall m {
        AssocSetGet(st.datasets, n, b, m);
      }
      assert Step(st, raw) == Ok(st.(inLoop := 2, datasets := AssocSet(st.datasets, n, b)));
    }
  }

  /** While a loop is open in a block and its column names are distinct,
      every column is a list, all of the same length, and all empty
      before the first row. */
  predicate LoopOk(st: Reader) {
    st.inLoop > 0 && st.current.Some? && NoDup(st.colnames) ==>
      (forall i :: 0 <= i < |st.colnames| ==>
        IsColumn(BlockOf(st), st.colnames[i]) &&
        |Cells(BlockOf(st), st.colnames[i])| == |Cells(BlockOf(st), st.colnames[0])|) &&
      (st.inLoop == 1 ==> forall i :: 0 <= i < |st.colnames| ==> Cells(BlockOf(st), st.colnames[i]) == [])
  }

  /** A new empty column keeps the columns of a loop without rows
      empty. */
  lemma ColumnAddedKeeps(st: Reader, s: Reader, c: string)
    requires LoopOk(st) && st.inLoop == 1 && st.current.Some?
    requires s.inLoop == 1 && s.current == st.current && s.colnames == st.colnames + [c]
    requires AssocGet(BlockOf(s), c) == Some(Column([]))
    requires forall k :: k != c ==> AssocGet(BlockOf(s), k) == AssocGet(BlockOf(st), k)
    ensures LoopOk(s)
  {
    if NoDup(s.colnames) {
      var m := |st.colnames|;
      assert s.colnames[m] == c;
      assert forall i :: 0 <= i < m ==> s.colnames[i] == st.colnames[i] && s.colnames[i] != s.colnames[m];
      assert NoDup(st.colnames);
      assert forall i :: 0 <= i < |s.colnames| ==> IsColumn(BlockOf(s), s.colnames[i]) && Cells(BlockOf(s), s.colnames[i]) == [];
    }
  }

  /** A row appended to every column keeps their lengths equal. */
  lemma RowAddedKeeps(st: Reader, s: Reader, elems: seq<string>)
    requires LoopOk(st) && st.inLoop > 0 && st.current.Some? && NoDup(st.colnames) && |elems| == |st.colnames|
    requires s.inLoop == 2 && s.current == st.current && s.colnames == st.colnames
    requires forall i :: 0 <= i < |st.colnames| ==>
      AssocGet(BlockOf(s), st.colnames[i]) == Some(Column(Cells(BlockOf(st), st.colnames[i]) + [elems[i]]))
    ensures LoopOk(s)
  {
    assert forall i :: 0 <= i < |st.colnames| ==>
      IsColumn(BlockOf(s), st.colnames[i]) && |Cells(BlockOf(s), st.colnames[i])| == |Cells(BlockOf(st), st.colnames[i])| + 1;
  }

  /** Every line keeps the loop columns of equal length. */
  lemma StepKeepsLoopOk(st: Reader, raw: string)
    requires LoopOk(st) && Step(st, raw).Ok?
    ensures LoopOk(Step(st, raw).value)
  {
    var line := Clean(raw);
    var s := Step(st, raw).value;
    if line == "" || IsPrefix("data_", line) || IsPrefix("loop_", line) {
    } else if IsPrefix("_", line) {
      StepField(st, raw);
      var elems := Tokens(line[1..]);
      if st.inLoop == 1 {
        ColumnAddedKeeps(st, s, elems[0]);
      } else {
        assert s.inLoop == 0;
      }
    } else if st.inLoop > 0 {
      StepRow(st, raw);
      if NoDup(st.colnames) {
        RowAddedKeeps(st, s, Tokens(line));
      } else {
        assert s.colnames == st.colnames;
      }
    } else {
      StepRow(st, raw);
    }
  }

  /** Reading any lines from a state whose loop columns agree keeps them
      in agreement. */
  lemma {:induction false} RunKeepsLoopOk(st: Reader, lines: seq<string>)
    requires LoopOk(st) && RunFrom(st, lines).Ok?
    ensures LoopOk(RunFrom(st, lines).value)
    decreases |lines|
  {
    if lines != [] {
      StepKeepsLoopOk(st, lines[0]);
      RunKeepsLoopOk(Step(st, lines[0]).value, lines[1..]);
    }
  }

  /** After any successfully read prefix of a STAR file, the columns of
      the loop being read (with distinct names) have equal lengths. */
  lemma LoadStarColumns(lines: seq<string>)
    requires RunFrom(Start, lines).Ok?
    ensures LoopOk(RunFrom(Start, lines).value)
  {
    RunKeepsLoopOk(Start, lines);
  }

  // ------------------------------------------------------------ done file

  /** `elems = line.split()` has at least 3 tokens and the first is `name`. */
  predicate IsJobLine(line: string, name: string) {
    |Tokens(line)| >= 3 && Tokens(line)[0] == name
  }

  /** The index of the first job line for `name`. */
  function FirstJobLine(lines: seq<string>, name: string): (r: Option<nat>)
    ensures r.Some? ==> r.value < |lines| && IsJobLine(lines[r.value], name)
    ensures r.Some? ==> forall j :: 0 <= j < r.value ==> !IsJobLine(lines[j], name)
    ensures r.None? ==> forall j :: 0 <= j < |lines| ==> !IsJobLine(lines[j], name)
    decreases |lines|
  {
    if lines == [] then None
    else if IsJobLine(lines[0], name) then Some(0)
    else
      match FirstJobLine(lines[1..], name)
      case None => None
      case Some(k) => Some(k + 1)
  }

  /** `getJobName` on the done file's lines (None when it is not a file):
      the third token of the first job line for `name`. */
  function JobName(done: Option<seq<string>>, name: string): Option<string> {
    match done
    case None => None
    case Some(lines) =>
      match FirstJobLine(lines, name)
      case None => None
      case Some(k) => Some(Tokens(lines[k])[2])
  }

  /** `getJobName(name_in_script, done_file)`. */
  method GetJobName(name: string, done: Option<seq<string>>) returns (jobname: Option<string>)
    ensures jobname == JobName(done, name)
  {
    jobname := None;
    if done.Some? {
      var lines := done.value;
      var k := 0;
      while k < |lines|
        invariant 0 <= k <= |lines| && forall j :: 0 <= j < k ==> !IsJobLine(lines[j], name)
      {
        var elems := Tokens(lines[k]);
        if |elems| >= 3 && elems[0] == name {
          jobname := Some(elems[2]);
          assert FirstJobLine(lines, name) == Some(k) by {
            FirstJobLineAt(lines, name, k);
          }
          return;
        }
        k := k + 1;
      }
    }
  }

  /** The first job line is the first index that is one. */
  lemma {:induction false} FirstJobLineAt(lines: seq<string>, name: string, k: nat)
    requires k < |lines| && IsJobLine(lines[k], name)
    requires forall j :: 0 <= j < k ==> !IsJobLine(lines[j], name)
    ensures FirstJobLine(lines, name) == Some(k)
    decreases k
  {
    if k > 0 {
      assert forall j :: 0 <= j < k - 1 ==> lines[1..][j] == lines[j + 1];
      FirstJobLineAt(lines[1..], name, k - 1);
    }
  }

  /** A token: non-empty and without white space. */
  predicate Word(w: string) {
    w != [] && forall k :: 0 <= k < |w| ==> !IsSpace(w[k])
  }

  lemma {:induction false} WordLengthOf(w: string, rest: string)
    requires forall k :: 0 <= k < |w| ==> !IsSpace(w[k])
    requires rest == [] || IsSpace(rest[0])
    ensures WordLength(w + rest) == |w|
    decreases |w|
  {
    if w != [] {
      assert (w + rest)[1..] == w[1..] + rest;
      WordLengthOf(w[1..], rest);
    } else {
      assert w + rest == rest;
    }
  }

  /** A word followed by white space (or nothing) is the first token. */
  lemma TokensWord(w: string, rest: string)
    requires Word(w) && (rest == [] || IsSpace(rest[0]))
    ensures Tokens(w + rest) == [w] + Tokens(rest)
  {
    WordLengthOf(w, rest);
    var s := w + rest;
    assert s[..|w|] == w && s[|w|..] == rest;
  }

  /** Leading white space is skipped. */
  lemma TokensSkip(c: char, s: string)
    requires IsSpace(c)
    ensures Tokens([c] + s) == Tokens(s)
  {
    assert ([c] + s)[1..] == s;
  }

  /** The line `addJob` appends to the done file. */
  function DoneLine(name: string, job: string): string {
    name + " = " + job + "\n"
  }

  lemma DoneLineShape(name: string, job: string)
    ensures DoneLine(name, job) == name + ([' '] + ("=" + ([' '] + (job + "\n"))))
  {
  }

  /** The line `addJob` writes splits into the name, "=" and the job. */
  lemma DoneLineTokens(name: string, job: string)
    requires Word(name) && Word(job)
    ensures Tokens(DoneLine(name, job)) == [name, "=", job]
  {
    var t3 := job + "\n";
    var t2 := [' '] + t3;
    var t1 := "=" + t2;
    var t0 := [' '] + t1;
    TokensSkip('\n', []);
    assert ['\n'] + [] == "\n";
    TokensWord(job, "\n");
    TokensSkip(' ', t3);
    TokensWord("=", t2);
    TokensSkip(' ', t1);
    TokensWord(name, t0);
    DoneLineShape(name, job);
  }

  /** The done-file bookkeeping of `addJob(..., name_in_script,
      done_file, ...)`, where `newJob` is the last process of the pipeline
      after the job was added: the job name, whether it was already had,
      and the done file's lines afterwards. */
  function AddJob(done: Option<seq<string>>, name: string, newJob: string): (string, bool, seq<string>) {
    var lines := if done.Some? then done.value else [];
    match JobName(done, name)
    case Some(j) => (j, true, lines)
    case None => (newJob, false, lines + [DoneLine(name, newJob)])
  }

  /** `addJob` is idempotent: afterwards the done file names the job it
      returned, so adding the same job again finds it and adds nothing. */
  lemma AddJobRemembers(done: Option<seq<string>>, name: string, newJob: string, newJob': string)
    requires Word(name) && Word(newJob)
    ensures var (job, _, after) := AddJob(done, name, newJob);
      JobName(Some(after), name) == Some(job) &&
      AddJob(Some(after), name, newJob') == (job, true, after)
  {
    var lines := if done.Some? then done.value else [];
    if JobName(done, name).None? {
      var after := lines + [DoneLine(name, newJob)];
      DoneLineTokens(name, newJob);
      assert after[|lines|] == DoneLine(name, newJob);
      assert FirstJobLine(lines, name).None? by {
        if done.Some? {
          assert lines == done.value;
        }
      }
      assert forall j :: 0 <= j < |lines| ==> after[j] == lines[j];
      FirstJobLineAt(after, name, |lines|);
    }
  }

  /** The `addJob` function and the separator-terminated option string;
      the option string is None when the job was already set up. */
  method AddJobCommand(done: Option<seq<string>>, name: string, options: seq<string>, newJob: string)
    returns (jobname: string, alreadyHadIt: bool, after: seq<string>, optionstring: Option<string>)
    ensures (jobname, alreadyHadIt, after) == AddJob(done, name, newJob)
    ensures optionstring == if alreadyHadIt then None else Some(Terminated(options, ';'))
  {
    var found := GetJobName(name, done);
    after := if done.Some? then done.value else [];
    if found.Some? {
      jobname, alreadyHadIt, optionstring := found.value, true, None;
    } else {
      alreadyHadIt := false;
      var s := Terminate(options, ';');
      optionstring := Some(s);
      jobname := newJob;
      after := after + [DoneLine(name, newJob)];
    }
  }

  // ----------------------------------------------------- argument strings

  /** Every item followed by `sep`. */
  function Terminated(items: seq<string>, sep: char): string
    decreases |items|
  {
    if items == [] then "" else items[0] + [sep] + Terminated(items[1..], sep)
  }

  lemma {:induction false} TerminatedSnoc(items: seq<string>, x: string, sep: char)
    ensures Terminated(items + [x], sep) == Terminated(items, sep) + x + [sep]
    decreases |items|
  {
    if items == [] {
      assert [x][1..] == [];
    } else {
      assert (items + [x])[1..] == items[1..] + [x];
      TerminatedSnoc(items[1..], x, sep);
    }
  }

  /** The `+=` loops of `addJob` (with ";") and `RunJobs` (with " "). */
  method Terminate(items: seq<string>, sep: char) returns (s: string)
    ensures s == Terminated(items, sep)
  {
    s := "";
    var k := 0;
    while k < |items|
      invariant 0 <= k <= |items| && s == Terminated(items[..k], sep)
    {
      TerminatedSnoc(items[..k], items[k], sep);
      assert items[..k + 1] == items[..k] + [items[k]];
      s := s + items[k] + [sep];
      k := k + 1;
    }
    assert items[..k] == items;
  }

  /** The terminated string is the items joined by `sep` with an empty
      last piece: it ends in `sep` unless there are no items. */
  lemma {:induction false} TerminatedJoin(items: seq<string>, sep: char)
    ensures Terminated(items, sep) == Join(items + [""], sep)
    decreases |items|
  {
    if items != [] {
      assert (items + [""])[1..] == items[1..] + [""];
      TerminatedJoin(items[1..], sep);
    }
  }

  /** Splitting the string on `sep` gives back the items, followed by an
      empty piece, when no item contains `sep`. */
  lemma SplitTerminated(items: seq<string>, sep: char)
    requires forall p :: p in items ==> sep !in p
    ensures Split(Terminated(items, sep), sep) == items + [""]
  {
    TerminatedJoin(items, sep);
    SplitJoin(items + [""], sep);
  }

  // ------------------------------------------------------------ box sizes

  /** `n + n % 2` (Python's `%` by 2 is 0 or 1 for every integer). */
  function EvenUp(n: int): (r: int)
    ensures r % 2 == 0 && (r == n || r == n + 1)
    ensures r == n <==> n % 2 == 0
  {
    n + n % 2
  }

  /** Rounding an even size changes nothing. */
  lemma EvenUpIdempotent(n: int)
    ensures EvenUp(EvenUp(n)) == EvenUp(n)
  {
  }

  /** `math.ceil(x)`: the least integer not below `x`. */
  function Ceil(x: real): (r: int)
    ensures r as real >= x && (r - 1) as real < x
  {
    -((-x).Floor)
  }

  /** `calculate_box_size(particle_size_pixels)` in exact arithmetic: the
      particle size is the real quotient of the diameter and the pixel size,
      and the answer is the smallest even size at least 1.2 times it. */
  function BoxSize(particlePixels: real): (r: int)
    ensures r % 2 == 0 && r as real >= 6.0 * particlePixels / 5.0 && (r - 2) as real < 6.0 * particlePixels / 5.0
  {
    EvenUp(Ceil(6.0 * particlePixels / 5.0))
  }

  // ------------------------------------------------------------- options

  /** A dict the caller hands over, as its items in insertion order. */
  class PyDict {
    var items: seq<(string, Value)>

    constructor (items0: seq<(string, Value)>)
      ensures items == items0
    {
      items := items0;
    }
  }

  /** A special name such as `__name__`. */
  predicate IsDunder(key: string) {
    IsPrefix("__", key) && IsSuffix("__", key)
  }

  /** One popped item: set when it names an existing option. */
  function Apply(attrs: map<string, Value>, item: (string, Value)): map<string, Value> {
    if !IsDunder(item.0) && item.0 in attrs then attrs[item.0 := item.1] else attrs
  }

  /** The items applied last to first, as `popitem` hands them out. */
  function Popped(attrs: map<string, Value>, items: seq<(string, Value)>): map<string, Value>
    decreases |items|
  {
    if items == [] then attrs else Popped(Apply(attrs, items[|items| - 1]), items[..|items| - 1])
  }

  lemma {:induction false} AssocGetSnoc<V>(l: seq<(string, V)>, x: (string, V), k: string)
    ensures AssocGet(l + [x], k) == if AssocGet(l, k).Some? then AssocGet(l, k) else if x.0 == k then Some(x.1) else None
    decreases |l|
  {
    if l == [] {
      assert [x][1..] == [];
    } else {
      assert (l + [x])[1..] == l[1..] + [x];
      AssocGetSnoc(l[1..], x, k);
    }
  }

  /** `update_from` sets exactly the existing, non-special options the
      dict names, each to the dict's value for it; no option is added. */
  lemma {:induction false} PoppedSpec(attrs: map<string, Value>, items: seq<(string, Value)>)
    ensures Popped(attrs, items).Keys == attrs.Keys
    ensures forall k :: k in attrs ==>
      Popped(attrs, items)[k] == if !IsDunder(k) && AssocGet(items, k).Some? then AssocGet(items, k).value else attrs[k]
    decreases |items|
  {
    if items != [] {
      var n := |items| - 1;
      var front, last := items[..n], items[n];
      assert items == front + [last];
      var a1 := Apply(attrs, last);
      PoppedSpec(a1, front);
      forall k | k in attrs
        ensures Popped(attrs, items)[k] == if !IsDunder(k) && AssocGet(items, k).Some? then AssocGet(items, k).value else attrs[k]
      {
        AssocGetSnoc(front, last, k);
      }
    }
  }

  /** Special names are never set, even when they are options. */
  lemma PoppedSkipsDunder(attrs: map<string, Value>, items: seq<(string, Value)>, k: string)
    requires k in attrs && IsDunder(k)
    ensures k in Popped(attrs, items) && Popped(attrs, items)[k] == attrs[k]
  {
    PoppedSpec(attrs, items);
  }

  class RelionItOptions {
    /** The option attributes and their values. */
    var attrs: map<string, Value>

    constructor (defaults: map<string, Value>)
      ensures attrs == defaults
    {
      attrs := defaults;
    }

    /** `update_from(other)`: pops every item of `other`, leaving it
        empty. */
    method UpdateFrom(other: PyDict)
      modifies this, other
      ensures other.items == []
      ensures attrs == Popped(old(attrs), old(other.items))
    {
      while |other.items| > 0
        invariant Popped(attrs, other.items) == Popped(old(attrs), old(other.items))
        decreases |other.items|
      {
        var n := |other.items| - 1;
        var (key, value) := other.items[n];
        other.items := other.items[..n];
        if !(IsPrefix("__", key) && IsSuffix("__", key)) {
          if key in attrs {
            attrs := attrs[key := value];
          }
        }
      }
    }
  }
}
