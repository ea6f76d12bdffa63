/** A crash signature (FTB/Signatures/CrashSignature.py): a non-empty, ordered list of
    symptoms plus three optional allow-lists (platforms, operating systems, products).
    It is built from JSON text, matched against a crash, scored against a crash, diffed
    symptom by symptom, and fitted into a new signature that the crash would match. */
module CrashSignature {
  import opened Wrappers
  import opened Symptoms

  /** The top-level JSON object of a signature after decoding. A list is `None` when its
      key is absent, which for the allow-lists means "no constraint". */
  datatype SignatureObject = SignatureObject(
    symptoms: Option<seq<Json>>,
    platforms: Option<seq<string>>,
    operatingSystems: Option<seq<string>>,
    products: Option<seq<string>>)

  /** The JSON library: `loads` returns `None` where `json.loads` raises `ValueError`;
      `dumps` is `json.dumps(obj, indent=2)`. */
  datatype JsonCodec = JsonCodec(
    loads: string -> Option<SignatureObject>,
    dumps: SignatureObject -> string)

  /** A constructed signature. `rawSignature` is the text it was built from, kept
      verbatim and handed out as its string form. */
  datatype Signature = Signature(
    rawSignature: string,
    symptoms: seq<Symptom>,
    platforms: Option<seq<string>>,
    operatingSystems: Option<seq<string>>,
    products: Option<seq<string>>)

  /** Every signature the constructor hands out has at least one symptom. */
  predicate Valid(sig: Signature) {
    |sig.symptoms| > 0
  }

  // ---------------------------------------------------------------------------------
  // Construction
  // ---------------------------------------------------------------------------------

  /** Decodes the entries of the `symptoms` array one after another; the first entry
      that fails to decode aborts the whole construction with that entry's error. */
  function DecodeSymptoms(entries: seq<Json>, fromJson: Json -> Result<Symptom, Error>)
    : (r: Result<seq<Symptom>, Error>)
    ensures r.Success? <==> forall i | 0 <= i < |entries| :: fromJson(entries[i]).Success?
    ensures r.Success? ==>
      && |r.value| == |entries|
      && forall i | 0 <= i < |entries| :: Success(r.value[i]) == fromJson(entries[i])
    ensures r.Failure? ==>
      exists k | 0 <= k < |entries| ::
        && Failure(r.error) == fromJson(entries[k])
        && forall i | 0 <= i < k :: fromJson(entries[i]).Success?
  {
    if |entries| == 0 then Success([])
    else
      match fromJson(entries[0])
      case Failure(e) => Failure(e)
      case Success(s) =>
        match DecodeSymptoms(entries[1..], fromJson)
        case Failure(e) =>
          assert forall i | 0 <= i < |entries| - 1 :: entries[1..][i] == entries[i + 1];
          Failure(e)
        case Success(rest) =>
          assert forall i | 0 <= i < |entries| - 1 :: entries[1..][i] == entries[i + 1];
          Success([s] + rest)
  }

  /** Builds a signature from its decoded top-level object; `raw` is the text it came
      from. The `symptoms` key is mandatory and its array must not be empty. */
  function FromObject(raw: string, obj: SignatureObject, ops: SymptomOps)
    : (r: Result<Signature, Error>)
    ensures obj.symptoms.None? ==> r == Failure(RuntimeError(MissingSymptoms))
    ensures obj.symptoms == Some([]) ==> r == Failure(RuntimeError(NoSymptoms))
    ensures r.Success? <==>
      && obj.symptoms.Some?
      && |obj.symptoms.value| > 0
      && forall i | 0 <= i < |obj.symptoms.value| :: ops.fromJson(obj.symptoms.value[i]).Success?
    ensures r.Success? ==>
      && Valid(r.value)
      && r.value.rawSignature == raw
      && |r.value.symptoms| == |obj.symptoms.value|
      && (forall i | 0 <= i < |r.value.symptoms| ::
            Success(r.value.symptoms[i]) == ops.fromJson(obj.symptoms.value[i]))
      && r.value.platforms == obj.platforms
      && r.value.operatingSystems == obj.operatingSystems
      && r.value.products == obj.products
  {
    if obj.symptoms.None? then
      Failure(RuntimeError(MissingSymptoms))
    else if |obj.symptoms.value| == 0 then
      Failure(RuntimeError(NoSymptoms))
    else
      match DecodeSymptoms(obj.symptoms.value, ops.fromJson)
      case Failure(e) => Failure(e)
      case Success(symptoms) =>
        Success(Signature(raw, symptoms, obj.platforms, obj.operatingSystems, obj.products))
  }

  /** The constructor `CrashSignature(rawSignature)`: decode the text, then build. */
  function Parse(raw: string, codec: JsonCodec, ops: SymptomOps): (r: Result<Signature, Error>)
    ensures codec.loads(raw).None? ==> r == Failure(RuntimeError(InvalidJson))
    ensures r.Success? ==>
      && codec.loads(raw).Some?
      && Valid(r.value)
      && ToString(r.value) == raw
      && r.value.platforms == codec.loads(raw).value.platforms
      && r.value.operatingSystems == codec.loads(raw).value.operatingSystems
      && r.value.products == codec.loads(raw).value.products
  {
    match codec.loads(raw)
    case None => Failure(RuntimeError(InvalidJson))
    case Some(obj) => FromObject(raw, obj, ops)
  }

  /** `str(signature)`: the text the signature was constructed from. */
  function ToString(sig: Signature): string {
    sig.rawSignature
  }

  // ---------------------------------------------------------------------------------
  // Matching
  // ---------------------------------------------------------------------------------

  /** An allow-list admits a value when it is absent or contains the value. */
  predicate Admits(allowed: Option<seq<string>>, value: string) {
    allowed.None? || value in allowed.value
  }

  /** Checks the symptoms in order, stopping at the first that does not match. */
  function AllMatch(symptoms: seq<Symptom>, crash: CrashInfo, matches: (Symptom, CrashInfo) -> bool)
    : (r: bool)
    ensures r <==> forall i | 0 <= i < |symptoms| :: matches(symptoms[i], crash)
  {
    if |symptoms| == 0 then true
    else if !matches(symptoms[0], crash) then false
    else
      assert forall i | 0 <= i < |symptoms| - 1 :: symptoms[1..][i] == symptoms[i + 1];
      AllMatch(symptoms[1..], crash, matches)
  }

  /** `matches`: the three allow-lists are checked first, then every symptom. */
  function Matches(sig: Signature, crash: CrashInfo, ops: SymptomOps): (r: bool)
    ensures r <==>
      && Admits(sig.platforms, crash.platform)
      && Admits(sig.operatingSystems, crash.os)
      && Admits(sig.products, crash.product)
      && forall i | 0 <= i < |sig.symptoms| :: ops.matches(sig.symptoms[i], crash)
  {
    if sig.platforms.Some? && crash.platform !in sig.platforms.value then false
    else if sig.operatingSystems.Some? && crash.os !in sig.operatingSystems.value then false
    else if sig.products.Some? && crash.product !in sig.products.value then false
    else AllMatch(sig.symptoms, crash, ops.matches)
  }

  /** Scans the symptoms for a testcase symptom. */
  function HasTestcase(symptoms: seq<Symptom>): (r: bool)
    ensures r <==> exists i | 0 <= i < |symptoms| :: symptoms[i].Testcase?
  {
    if |symptoms| == 0 then false
    else if symptoms[0].Testcase? then true
    else
      assert forall i | 0 <= i < |symptoms| - 1 :: symptoms[1..][i] == symptoms[i + 1];
      HasTestcase(symptoms[1..])
  }

  /** `matchRequiresTest`: whether a crash needs its testcase attached to be matched. */
  function MatchRequiresTest(sig: Signature): (r: bool)
    ensures r <==> exists i | 0 <= i < |sig.symptoms| :: sig.symptoms[i].Testcase?
  {
    HasTestcase(sig.symptoms)
  }

  // ---------------------------------------------------------------------------------
  // Distance
  // ---------------------------------------------------------------------------------

  /** What one symptom adds to the distance: a stack-frame symptom adds its diff
      distance, or its full frame count when the diff gives none; any other symptom
      adds one when it does not match. */
  function SymptomCost(s: Symptom, crash: CrashInfo, ops: SymptomOps): nat {
    if s.StackFrames? then ops.diff(s, crash).distance.GetOr(|s.functionNames|)
    else if ops.matches(s, crash) then 0
    else 1
  }

  /** The sum of the symptom costs, accumulated from the left. */
  function CostSum(symptoms: seq<Symptom>, crash: CrashInfo, ops: SymptomOps): nat {
    if |symptoms| == 0 then 0
    else CostSum(symptoms[..|symptoms| - 1], crash, ops) + SymptomCost(symptoms[|symptoms| - 1], crash, ops)
  }

  /** The sum of `|functionNames| - 1` over the stack-frame symptoms: how much the
      per-frame weighting of stack symptoms adds to a plain symptom count. */
  function StackSurplus(symptoms: seq<Symptom>): int {
    if |symptoms| == 0 then 0
    else
      var last := symptoms[|symptoms| - 1];
      StackSurplus(symptoms[..|symptoms| - 1]) + (if last.StackFrames? then |last.functionNames| - 1 else 0)
  }

  /** `getDistance`: the pair (distance, total) used to rank how close a signature
      comes to a crash. */
  method GetDistance(sig: Signature, crash: CrashInfo, ops: SymptomOps)
    returns (distance: int, total: int)
    ensures distance == CostSum(sig.symptoms, crash, ops)
    ensures total == |sig.symptoms| + StackSurplus(sig.symptoms)
  {
    total := |sig.symptoms|;
    distance := 0;
    for i := 0 to |sig.symptoms|
      invariant distance == CostSum(sig.symptoms[..i], crash, ops)
      invariant total == |sig.symptoms| + StackSurplus(sig.symptoms[..i])
    {
      var symptom := sig.symptoms[i];
      assert sig.symptoms[..i + 1][..i] == sig.symptoms[..i];
      if symptom.StackFrames? {
        var symptomDistance := ops.diff(symptom, crash).distance;
        if symptomDistance.Some? {
          distance := distance + symptomDistance.value;
        } else {
          // no distance available: assume the worst case
          distance := distance + |symptom.functionNames|;
        }
        total := total + |symptom.functionNames|;
        total := total - 1;
      } else {
        if !ops.matches(symptom, crash) {
          distance := distance + 1;
        }
      }
    }
    assert sig.symptoms[..|sig.symptoms|] == sig.symptoms;
  }

  // ---------------------------------------------------------------------------------
  // Symptom diff
  // ---------------------------------------------------------------------------------

  /** The `proposed` key of a diff entry: absent, or present with a value that may be
      `None`. */
  datatype Proposal = Absent | Present(candidate: Option<Symptom>)

  /** One entry of `getSymptomsDiff`. */
  datatype SymptomDiff = SymptomDiff(offending: bool, symptom: Symptom, proposed: Proposal)

  /** The diff entry for one symptom. Only an offending stack-frame symptom gets a
      `proposed` key, holding the replacement its diff suggests. */
  function DiffEntry(s: Symptom, crash: CrashInfo, ops: SymptomOps): SymptomDiff {
    if ops.matches(s, crash) then SymptomDiff(false, s, Absent)
    else if s.StackFrames? then SymptomDiff(true, s, Present(ops.diff(s, crash).proposed))
    else SymptomDiff(true, s, Absent)
  }

  /** `getSymptomsDiff`: one entry per symptom, in the symptoms' order. */
  function SymptomsDiff(symptoms: seq<Symptom>, crash: CrashInfo, ops: SymptomOps)
    : (r: seq<SymptomDiff>)
    ensures |r| == |symptoms|
    ensures forall i | 0 <= i < |symptoms| ::
      && r[i].symptom == symptoms[i]
      && (r[i].offending <==> !ops.matches(symptoms[i], crash))
      && (r[i].proposed.Present? <==> r[i].offending && symptoms[i].StackFrames?)
      && (r[i].proposed.Present? ==> r[i].proposed.candidate == ops.diff(symptoms[i], crash).proposed)
  {
    if |symptoms| == 0 then []
    else
      var rest := SymptomsDiff(symptoms[1..], crash, ops);
      assert forall i | 0 <= i < |symptoms| - 1 :: symptoms[1..][i] == symptoms[i + 1];
      [DiffEntry(symptoms[0], crash, ops)] + rest
  }

  // ---------------------------------------------------------------------------------
  // Fitting
  // ---------------------------------------------------------------------------------

  /** A symptom that does not match and has no way to propose a replacement. */
  predicate Unrepairable(s: Symptom, crash: CrashInfo, ops: SymptomOps) {
    !s.StackFrames? && !ops.matches(s, crash)
  }

  /** A diff entry that fitting cannot handle: offending, yet without a `proposed` key. */
  predicate MissingProposal(d: SymptomDiff) {
    d.offending && d.proposed.Absent?
  }

  /** The symptom entries of the fitted signature object, built from the diff in
      order: a matching symptom is written back as it is, an offending one is replaced
      by its proposal or left out when the proposal is `None`. Looking up `proposed`
      on an entry that lacks it raises `KeyError`. */
  function FitEntries(diffs: seq<SymptomDiff>): (r: Result<seq<Json>, Error>)
    ensures r.Failure? <==> exists i | 0 <= i < |diffs| :: MissingProposal(diffs[i])
    ensures r.Failure? ==> r.error == KeyError("proposed")
    ensures r.Success? ==> |r.value| <= |diffs|
  {
    if |diffs| == 0 then Success([])
    else
      var d := diffs[0];
      assert forall i | 0 <= i < |diffs| - 1 :: diffs[1..][i] == diffs[i + 1];
      if d.offending && d.proposed.Absent? then Failure(KeyError("proposed"))
      else
        var head := if !d.offending then [d.symptom.jsonobj]
                    else if d.proposed.candidate.Some? then [d.proposed.candidate.value.jsonobj]
                    else [];
        match FitEntries(diffs[1..])
        case Failure(e) => Failure(e)
        case Success(tail) => Success(head + tail)
  }

  /** An allow-list is carried into a fitted signature only when it is non-empty;
      an empty list (which no crash passes) becomes absent. */
  function CopyIfNonEmpty(allowed: Option<seq<string>>): (r: Option<seq<string>>)
    ensures r.Some? <==> allowed.Some? && |allowed.value| > 0
    ensures r.Some? ==> r == allowed
  {
    if allowed.Some? && |allowed.value| > 0 then allowed else None
  }

  /** The signature object `fit` assembles before handing it to the constructor. */
  function FitObject(sig: Signature, crash: CrashInfo, ops: SymptomOps)
    : (r: Result<SignatureObject, Error>)
    ensures r.Failure? <==> exists i | 0 <= i < |sig.symptoms| :: Unrepairable(sig.symptoms[i], crash, ops)
    ensures r.Failure? ==> r.error == KeyError("proposed")
    ensures r.Success? ==>
      && r.value.symptoms.Some?
      && |r.value.symptoms.value| <= |sig.symptoms|
      && r.value.platforms == CopyIfNonEmpty(sig.platforms)
      && r.value.operatingSystems == CopyIfNonEmpty(sig.operatingSystems)
      && r.value.products == CopyIfNonEmpty(sig.products)
  {
    var diffs := SymptomsDiff(sig.symptoms, crash, ops);
    assert forall i | 0 <= i < |sig.symptoms| ::
      MissingProposal(diffs[i]) <==> Unrepairable(sig.symptoms[i], crash, ops);
    match FitEntries(diffs)
    case Failure(e) => Failure(e)
    case Success(entries) =>
      Success(SignatureObject(Some(entries),
                              CopyIfNonEmpty(sig.platforms),
                              CopyIfNonEmpty(sig.operatingSystems),
                              CopyIfNonEmpty(sig.products)))
  }

  /** `fit`: a new signature for the crash, re-parsed through the constructor from the
      object `FitObject` assembles (its text being that object's JSON dump). */
  function Fit(sig: Signature, crash: CrashInfo, codec: JsonCodec, ops: SymptomOps)
    : (r: Result<Signature, Error>)
    ensures (exists i | 0 <= i < |sig.symptoms| :: Unrepairable(sig.symptoms[i], crash, ops)) ==>
      r == Failure(KeyError("proposed"))
    ensures FitObject(sig, crash, ops).Success? && FitObject(sig, crash, ops).value.symptoms == Some([]) ==>
      r == Failure(RuntimeError(NoSymptoms))
    ensures r.Success? ==>
      && FitObject(sig, crash, ops).Success?
      && Valid(r.value)
      && |r.value.symptoms| <= |sig.symptoms|
      && r.value.rawSignature == codec.dumps(FitObject(sig, crash, ops).value)
      && r.value.platforms == CopyIfNonEmpty(sig.platforms)
      && r.value.operatingSystems == CopyIfNonEmpty(sig.operatingSystems)
      && r.value.products == CopyIfNonEmpty(sig.products)
    ensures FitObject(sig, crash, ops).Success? ==>
      var obj := FitObject(sig, crash, ops).value;
      codec.loads(codec.dumps(obj)) == Some(obj) ==> r == Parse(codec.dumps(obj), codec, ops)
  {
    match FitObject(sig, crash, ops)
    case Failure(e) => Failure(e)
    case Success(obj) => FromObject(codec.dumps(obj), obj, ops)
  }
}
