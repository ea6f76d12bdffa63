/** The collaborators of a crash signature: the crash description it is matched against
    and the symptom kinds it is built from. How a single symptom is decoded, matched or
    diffed lives in FTB/Signatures/Symptom.py, which is not part of this model; those
    three operations are therefore carried as function values in `SymptomOps`. The
    signature operations assume nothing of them; the few lemmas that need a property
    of them (a symptom re-parsing to itself, a proposal matching the crash, a bound on
    diff distances) state it as a `requires`. */
module Symptoms {
  import opened Wrappers

  /** A decoded JSON value: the payload handed to `Symptom.fromJSONObject`. */
  datatype Json =
    | Null
    | Bool(b: bool)
    | Number(n: int)
    | Str(s: string)
    | Array(items: seq<Json>)
    | Object(members: map<string, Json>)

  /** The crash a signature is matched against. Signatures read `platform`, `os` and
      `product` themselves; the stack and the testcase are only seen by symptoms. */
  datatype CrashInfo = CrashInfo(
    platform: string,
    os: string,
    product: string,
    backtrace: seq<string>,
    testcase: Option<string>)

  /** The closed set of symptom kinds a signature distinguishes. Every symptom keeps the
      JSON object it was decoded from (`jsonobj`), which is what fitting writes back. */
  datatype Symptom =
    | Testcase(jsonobj: Json)
    | StackFrames(functionNames: seq<string>, jsonobj: Json)
    | Other(jsonobj: Json)

  /** What `StackFramesSymptom.diff` returns: an alignment distance and a proposed
      replacement symptom, either of which may be missing. */
  datatype StackDiff = StackDiff(distance: Option<nat>, proposed: Option<Symptom>)

  /** The cause of a `RuntimeError`: the text is not JSON (line 41), the `symptoms`
      key is missing (line 52) or its array is empty (line 47), or a symptom entry was
      rejected by `Symptom.fromJSONObject` (line 50). */
  datatype Reason = InvalidJson | MissingSymptoms | NoSymptoms | BadSymptom

  /** Why constructing or fitting a signature failed. Fitting can also fail on a
      missing dictionary key; whatever `fromJSONObject` raises is passed on as it is. */
  datatype Error = RuntimeError(reason: Reason) | KeyError(key: string)

  /** The per-symptom behaviour that signatures delegate to:
      `fromJson` is `Symptom.fromJSONObject`, `matches` is `Symptom.matches`, and
      `diff` is `StackFramesSymptom.diff` (only ever asked about stack-frame symptoms). */
  datatype SymptomOps = SymptomOps(
    fromJson: Json -> Result<Symptom, Error>,
    matches: (Symptom, CrashInfo) -> bool,
    diff: (Symptom, CrashInfo) -> StackDiff)

  /** Decoding the JSON object a symptom keeps gives back that very symptom. Fitting
      relies on this when it re-parses the symptoms it writes out. */
  predicate Reparses(fromJson: Json -> Result<Symptom, Error>, s: Symptom) {
    fromJson(s.jsonobj) == Success(s)
  }
}
