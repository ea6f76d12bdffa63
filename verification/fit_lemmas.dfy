/** Properties of `fit`. `Refitted` is the symptom list a fit is meant to produce,
    written symptom by symptom: a matching symptom is kept, an offending stack-frame
    symptom is replaced by its proposal or dropped. The lemmas show that `Fit` yields
    exactly that list (once its symptoms re-parse to themselves), keeps the original
    order, leaves a fully matching signature alone, and produces a signature that
    matches the crash whenever the proposals do and the allow-lists admit the crash. */
module FitLemmas {
  import opened Wrappers
  import opened Symptoms
  import opened CrashSignature

  /** What one symptom turns into in a fitted signature. */
  function Replacement(s: Symptom, crash: CrashInfo, ops: SymptomOps): seq<Symptom> {
    if ops.matches(s, crash) then [s]
    else if s.StackFrames? then
      match ops.diff(s, crash).proposed
      case Some(p) => [p]
      case None => []
    else []
  }

  /** The fitted symptom list: the replacements, in the order of the symptoms. */
  function Refitted(symptoms: seq<Symptom>, crash: CrashInfo, ops: SymptomOps): seq<Symptom> {
    if |symptoms| == 0 then []
    else Replacement(symptoms[0], crash, ops) + Refitted(symptoms[1..], crash, ops)
  }

  /** The JSON objects of a list of symptoms, as `fit` writes them out. */
  function JsonObjects(symptoms: seq<Symptom>): (r: seq<Json>)
    ensures |r| == |symptoms|
    ensures forall i | 0 <= i < |symptoms| :: r[i] == symptoms[i].jsonobj
  {
    if |symptoms| == 0 then [] else [symptoms[0].jsonobj] + JsonObjects(symptoms[1..])
  }

  /** No symptom is offending without a way to propose a replacement. */
  predicate AllRepairable(symptoms: seq<Symptom>, crash: CrashInfo, ops: SymptomOps) {
    forall i | 0 <= i < |symptoms| :: !Unrepairable(symptoms[i], crash, ops)
  }

  /** Every symptom in the list re-parses to itself. */
  predicate AllReparse(symptoms: seq<Symptom>, ops: SymptomOps) {
    forall i | 0 <= i < |symptoms| :: Reparses(ops.fromJson, symptoms[i])
  }

  /** Every proposal the stack diff makes for an offending symptom matches the crash. */
  predicate ProposalsMatch(symptoms: seq<Symptom>, crash: CrashInfo, ops: SymptomOps) {
    forall i | 0 <= i < |symptoms| ::
      && symptoms[i].StackFrames?
      && !ops.matches(symptoms[i], crash)
      && ops.diff(symptoms[i], crash).proposed.Some?
      ==> ops.matches(ops.diff(symptoms[i], crash).proposed.value, crash)
  }

  /** Fitting works symptom by symptom, so the fit of a concatenation is the
      concatenation of the fits: the fitted symptoms keep the original order. */
  lemma {:induction false} RefittedAppend(a: seq<Symptom>, b: seq<Symptom>, crash: CrashInfo, ops: SymptomOps)
    ensures Refitted(a + b, crash, ops) == Refitted(a, crash, ops) + Refitted(b, crash, ops)
    decreases |a|
  {
    if |a| == 0 {
      assert a + b == b;
    } else {
      assert (a + b)[0] == a[0];
      assert (a + b)[1..] == a[1..] + b;
      RefittedAppend(a[1..], b, crash, ops);
    }
  }

  /** A fit never adds symptoms. */
  lemma {:induction false} RefittedLength(symptoms: seq<Symptom>, crash: CrashInfo, ops: SymptomOps)
    ensures |Refitted(symptoms, crash, ops)| <= |symptoms|
    decreases |symptoms|
  {
    if |symptoms| > 0 {
      RefittedLength(symptoms[1..], crash, ops);
    }
  }

  /** When every symptom matches, fitting keeps the symptom list as it is. */
  lemma {:induction false} RefittedAllMatching(symptoms: seq<Symptom>, crash: CrashInfo, ops: SymptomOps)
    requires forall i | 0 <= i < |symptoms| :: ops.matches(symptoms[i], crash)
    ensures Refitted(symptoms, crash, ops) == symptoms
    decreases |symptoms|
  {
    if |symptoms| > 0 {
      assert forall i | 0 <= i < |symptoms| - 1 :: symptoms[1..][i] == symptoms[i + 1];
      RefittedAllMatching(symptoms[1..], crash, ops);
    }
  }

  /** Every fitted symptom matches the crash, when the proposals do. */
  lemma {:induction false} RefittedMatch(symptoms: seq<Symptom>, crash: CrashInfo, ops: SymptomOps)
    requires ProposalsMatch(symptoms, crash, ops)
    ensures forall i | 0 <= i < |Refitted(symptoms, crash, ops)| :: ops.matches(Refitted(symptoms, crash, ops)[i], crash)
    decreases |symptoms|
  {
    if |symptoms| > 0 {
      assert forall i | 0 <= i < |symptoms| - 1 :: symptoms[1..][i] == symptoms[i + 1];
      RefittedMatch(symptoms[1..], crash, ops);
      var head := Replacement(symptoms[0], crash, ops);
      var tail := Refitted(symptoms[1..], crash, ops);
      assert forall i | 0 <= i < |head| :: ops.matches(head[i], crash);
      assert forall i | 0 <= i < |head + tail| :: (head + tail)[i] == if i < |head| then head[i] else tail[i - |head|];
    }
  }

  /** The entries `fit` writes out are the JSON objects of the refitted symptoms. */
  lemma {:induction false} FitEntriesAreRefitted(symptoms: seq<Symptom>, crash: CrashInfo, ops: SymptomOps)
    requires AllRepairable(symptoms, crash, ops)
    ensures FitEntries(SymptomsDiff(symptoms, crash, ops)) == Success(JsonObjects(Refitted(symptoms, crash, ops)))
    decreases |symptoms|
  {
    if |symptoms| > 0 {
      var diffs := SymptomsDiff(symptoms, crash, ops);
      assert diffs[1..] == SymptomsDiff(symptoms[1..], crash, ops);
      assert forall i | 0 <= i < |symptoms| - 1 :: symptoms[1..][i] == symptoms[i + 1];
      FitEntriesAreRefitted(symptoms[1..], crash, ops);
      var head := Replacement(symptoms[0], crash, ops);
      var tail := Refitted(symptoms[1..], crash, ops);
      assert JsonObjects(head + tail) == JsonObjects(head) + JsonObjects(tail);
    }
  }

  /** Decoding the JSON objects of symptoms that re-parse gives those symptoms back. */
  lemma DecodeJsonObjects(symptoms: seq<Symptom>, ops: SymptomOps)
    requires AllReparse(symptoms, ops)
    ensures DecodeSymptoms(JsonObjects(symptoms), ops.fromJson) == Success(symptoms)
  {
    var r := DecodeSymptoms(JsonObjects(symptoms), ops.fromJson);
    assert r.Success?;
    assert r.value == symptoms;
  }

  /** `fit` produces the refitted symptom list: it succeeds exactly when that list is
      non-empty, and fails with the "at least one symptom" error otherwise. */
  lemma FitSymptoms(sig: Signature, crash: CrashInfo, codec: JsonCodec, ops: SymptomOps)
    requires AllRepairable(sig.symptoms, crash, ops)
    requires AllReparse(Refitted(sig.symptoms, crash, ops), ops)
    ensures Fit(sig, crash, codec, ops).Success? <==> |Refitted(sig.symptoms, crash, ops)| > 0
    ensures Fit(sig, crash, codec, ops).Success? ==>
      Fit(sig, crash, codec, ops).value.symptoms == Refitted(sig.symptoms, crash, ops)
    ensures |Refitted(sig.symptoms, crash, ops)| == 0 ==>
      Fit(sig, crash, codec, ops) == Failure(RuntimeError(NoSymptoms))
  {
    FitEntriesAreRefitted(sig.symptoms, crash, ops);
    DecodeJsonObjects(Refitted(sig.symptoms, crash, ops), ops);
  }

  /** Fitting a signature against a crash it already matches changes nothing but the
      text: the symptoms and the allow-lists come back as they were. */
  lemma FitIdempotent(sig: Signature, crash: CrashInfo, codec: JsonCodec, ops: SymptomOps)
    requires Valid(sig)
    requires Matches(sig, crash, ops)
    requires AllReparse(sig.symptoms, ops)
    ensures Fit(sig, crash, codec, ops).Success?
    ensures Fit(sig, crash, codec, ops).value.symptoms == sig.symptoms
    ensures Fit(sig, crash, codec, ops).value.platforms == sig.platforms
    ensures Fit(sig, crash, codec, ops).value.operatingSystems == sig.operatingSystems
    ensures Fit(sig, crash, codec, ops).value.products == sig.products
  {
    RefittedAllMatching(sig.symptoms, crash, ops);
    FitSymptoms(sig, crash, codec, ops);
  }

  /** A fitted signature matches the crash it was fitted to exactly when the carried
      allow-lists admit that crash, provided the proposals match the crash. Since
      non-empty allow-lists are copied unchanged, a crash outside the original scope is
      still rejected after fitting. */
  lemma FitMatchesCrash(sig: Signature, crash: CrashInfo, codec: JsonCodec, ops: SymptomOps)
    requires AllRepairable(sig.symptoms, crash, ops)
    requires AllReparse(Refitted(sig.symptoms, crash, ops), ops)
    requires ProposalsMatch(sig.symptoms, crash, ops)
    ensures Fit(sig, crash, codec, ops).Success? ==>
      (Matches(Fit(sig, crash, codec, ops).value, crash, ops) <==>
        && Admits(CopyIfNonEmpty(sig.platforms), crash.platform)
        && Admits(CopyIfNonEmpty(sig.operatingSystems), crash.os)
        && Admits(CopyIfNonEmpty(sig.products), crash.product))
  {
    FitSymptoms(sig, crash, codec, ops);
    RefittedMatch(sig.symptoms, crash, ops);
  }
}
