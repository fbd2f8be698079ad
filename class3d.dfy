/** The helpers of the 3D classification parser `Class3D` that differ from
    the 2D ones: finding the class of the initial model in its file name,
    counting the particles of that class, and the 3D database rows. The
    class checker, the counting, the iteration selection and the file name
    parts are those of `Class2Ds`. */
module Class3Ds {
  import opened Values
  import opened Class2Ds

  // ----------------------------------------------------- initial model

  /** `s.replace(pat, "")`: occurrences of `pat` removed, scanning from the
      left. */
  function RemoveAll(s: string, pat: string): (r: string)
    requires pat != []
    ensures |r| <= |s|
    ensures !Contains(s, pat) ==> r == s
    decreases |s|
  {
    if s == [] then []
    else if IsPrefix(pat, s) then RemoveAll(s[|pat|..], pat)
    else [s[0]] + RemoveAll(s[1..], pat)
  }

  /** The index of the first part that contains "class", if any. */
  function FirstClassPart(parts: seq<string>): (r: Option<nat>)
    ensures r.Some? ==> r.value < |parts| && Contains(parts[r.value], "class")
    ensures r.Some? ==> forall j :: 0 <= j < r.value ==> !Contains(parts[j], "class")
    ensures r.None? ==> forall j :: 0 <= j < |parts| ==> !Contains(parts[j], "class")
    decreases |parts|
  {
    if parts == [] then None
    else if Contains(parts[0], "class") then Some(0)
    else
      match FirstClassPart(parts[1..])
      case None => None
      case Some(i) => Some(i + 1)
  }

  /** The class token of an initial-model file name: the first
      `_`-separated part containing "class", cut at its first "." and
      with "class" removed; None when no part contains "class". */
  function ClassToken(name: string): Option<string> {
    var parts := Split(name, '_');
    match FirstClassPart(parts)
    case None => None
    case Some(k) => Some(RemoveAll(Split(parts[k], '.')[0], "class"))
  }

  /** The for/else search of `_get_init_model_num_particles`. */
  method FindClassToken(name: string) returns (r: Option<string>)
    ensures r == ClassToken(name)
  {
    var parts := Split(name, '_');
    var k := 0;
    while k < |parts|
      invariant 0 <= k <= |parts| && forall j :: 0 <= j < k ==> !Contains(parts[j], "class")
    {
      if Contains(parts[k], "class") {
        return Some(RemoveAll(Split(parts[k], '.')[0], "class"));
      }
      k := k + 1;
    }
    return None;
  }

  /** `str(int(token))`: the canonical spelling of a numeric token. */
  function ClassKey(token: string): (key: string)
    requires IsNumeric(token)
    ensures IsNumeric(key) && DigitsValue(key) == DigitsValue(token)
  {
    Decimal(DigitsValue(token))
  }

  /** Tokens that differ only in leading zeros name the same class. */
  lemma ClassKeyZeros(k: nat, token: string)
    requires IsNumeric(token)
    ensures IsNumeric(Repeat('0', k) + token) && ClassKey(Repeat('0', k) + token) == ClassKey(token)
  {
    DigitsValueZeros(k, token);
  }

  /** `_get_init_model_num_particles` given the initial model's file name
      and the class-number column of its data file: None when the name
      has no class part, a ValueError when the token is not a number,
      else how often the token's canonical spelling occurs. */
  function InitModelParticles(name: string, classNumbers: seq<string>): (r: Result<Option<nat>>) {
    match ClassToken(name)
    case None => Ok(None)
    case Some(token) =>
      if IsNumeric(token) then Ok(Some(Count(classNumbers, ClassKey(token)))) else Err(ValueError)
  }

  /** Only entries spelled as the class's canonical number are counted:
      for the token "001", "01" is not. */
  lemma ClassKeyExample()
    ensures ClassKey("001") == "1"
    ensures Count(["1", "01", "1", "2"], ClassKey("001")) == 2
  {
    assert "001"[..2] == "00" && "00"[..1] == "0" && "0"[..0] == [];
    assert DigitsValue("001") == 1;
    var cs := ["1", "01", "1", "2"];
    assert cs[..3] == ["1", "01", "1"] && cs[..3][..2] == ["1", "01"] && ["1", "01"][..1] == ["1"];
    assert ["1"][..0] == [];
    assert ClassKey("001") == "1";
    assert Count(["1"], "1") == 1;
    assert Count(["1", "01"], "1") == 1;
    assert Count(["1", "01", "1"], "1") == 2;
  }

  predicate NoClassPart(parts: seq<string>) {
    forall j :: 0 <= j < |parts| ==> !Contains(parts[j], "class")
  }

  /** The initial-model count is None exactly when no part of the name
      contains "class", and the only error is a ValueError for a
      non-numeric token. */
  lemma InitModelParticlesNone(name: string, classNumbers: seq<string>)
    ensures InitModelParticles(name, classNumbers) == Ok(None) <==> NoClassPart(Split(name, '_'))
    ensures InitModelParticles(name, classNumbers).Err? ==> InitModelParticles(name, classNumbers).error == ValueError
  {
    var parts := Split(name, '_');
    if FirstClassPart(parts).Some? {
      var k := FirstClassPart(parts).value;
      assert ClassToken(name) == Some(RemoveAll(Split(parts[k], '.')[0], "class"));
      assert InitModelParticles(name, classNumbers) != Ok(None);
      assert Contains(parts[k], "class");
    } else {
      assert ClassToken(name) == None;
    }
  }

  /** Tokens that differ only in leading zeros give the same count. */
  lemma InitModelParticlesZeros(name: string, classNumbers: seq<string>, k: nat)
    requires ClassToken(name).Some? && IsNumeric(ClassToken(name).value)
    ensures IsNumeric(Repeat('0', k) + ClassToken(name).value)
    ensures InitModelParticles(name, classNumbers) ==
      Ok(Some(Count(classNumbers, ClassKey(Repeat('0', k) + ClassToken(name).value))))
  {
    ClassKeyZeros(k, ClassToken(name).value);
  }

  // ------------------------------------------------------------ db_unpack

  /** A `Class3DParticleClass`; the float `class_distribution` is an
      integer key here. */
  datatype ParticleClass3D = ParticleClass3D(
    particleSum: Pair,
    referenceImage: Value,
    classDistribution: int,
    accuracyRotations: Value,
    accuracyTranslations: Value,
    estimatedResolution: Value,
    fourierCompleteness: Value,
    initialModelParticles: Value,
    job: Value,
    pickerJob: Value,
    iniModelJob: Value,
    batchNumber: Value)

  /** The row `db_unpack` writes for one 3D class (`job_string` is listed
      twice in the source with the same value). */
  function Row3D(cl: ParticleClass3D): (row: map<string, Value>)
    ensures row.Keys == {"type", "job_string", "parpick_job_string", "class_number", "particles_per_class",
      "rotation_accuracy", "translation_accuracy", "estimated_resolution", "overall_fourier_completeness",
      "number_of_particles", "ini_model_job_string", "batch_number"}
    ensures row["type"] == Str("3D") && row["job_string"] == cl.job && row["parpick_job_string"] == cl.pickerJob
    ensures row["class_number"] == Int(cl.particleSum.0) && row["particles_per_class"] == Int(cl.particleSum.1)
    ensures row["number_of_particles"] == cl.initialModelParticles && row["ini_model_job_string"] == cl.iniModelJob
    ensures row["batch_number"] == cl.batchNumber
  {
    map["type" := Str("3D"), "job_string" := cl.job, "parpick_job_string" := cl.pickerJob,
        "class_number" := Int(cl.particleSum.0), "particles_per_class" := Int(cl.particleSum.1),
        "rotation_accuracy" := cl.accuracyRotations, "translation_accuracy" := cl.accuracyTranslations,
        "estimated_resolution" := cl.estimatedResolution,
        "overall_fourier_completeness" := cl.fourierCompleteness,
        "number_of_particles" := cl.initialModelParticles, "ini_model_job_string" := cl.iniModelJob,
        "batch_number" := cl.batchNumber]
  }

  /** One row per class, in order. */
  function Unpacked3D(cls: seq<ParticleClass3D>): (rows: seq<Value>)
    ensures |rows| == |cls|
  {
    seq(|cls|, k requires 0 <= k < |cls| => Dict(Row3D(cls[k])))
  }

  /** `db_unpack(particle_class)` of the 3D parser. */
  method DbUnpack3D(cls: seq<ParticleClass3D>) returns (res: seq<Value>)
    ensures res == Unpacked3D(cls)
  {
    res := [];
    var k := 0;
    while k < |cls|
      invariant 0 <= k <= |cls| && res == Unpacked3D(cls)[..k]
    {
      res := res + [Dict(Row3D(cls[k]))];
      assert Unpacked3D(cls)[..k + 1] == Unpacked3D(cls)[..k] + [Unpacked3D(cls)[k]];
      k := k + 1;
    }
    assert Unpacked3D(cls)[..k] == Unpacked3D(cls);
  }
}
