/** Properties of the (distance, total) score of `getDistance`: the total weighs a
    stack-frame symptom by its frame count, the distance is additive over symptoms,
    is zero exactly when every symptom is met exactly, and reaches the total exactly
    when every symptom is at its worst. */
module DistanceLemmas {
  import opened Wrappers
  import opened Symptoms
  import opened CrashSignature

  /** The weight a symptom carries in the total: its frame count for a stack-frame
      symptom, one for any other. */
  function SymptomWeight(s: Symptom): int {
    if s.StackFrames? then |s.functionNames| else 1
  }

  function WeightSum(symptoms: seq<Symptom>): int {
    if |symptoms| == 0 then 0
    else WeightSum(symptoms[..|symptoms| - 1]) + SymptomWeight(symptoms[|symptoms| - 1])
  }

  /** The total `getDistance` reports is the sum of the symptom weights. */
  lemma {:induction false} TotalIsWeightSum(symptoms: seq<Symptom>)
    ensures |symptoms| + StackSurplus(symptoms) == WeightSum(symptoms)
    decreases |symptoms|
  {
    if |symptoms| > 0 {
      TotalIsWeightSum(symptoms[..|symptoms| - 1]);
    }
  }

  /** A signature without stack-frame symptoms has one unit of total per symptom. */
  lemma {:induction false} TotalWithoutStacks(symptoms: seq<Symptom>)
    requires forall i | 0 <= i < |symptoms| :: !symptoms[i].StackFrames?
    ensures |symptoms| + StackSurplus(symptoms) == |symptoms|
    decreases |symptoms|
  {
    if |symptoms| > 0 {
      var front := symptoms[..|symptoms| - 1];
      assert forall i | 0 <= i < |front| :: front[i] == symptoms[i];
      TotalWithoutStacks(front);
    }
  }

  /** The distance of a concatenation is the sum of the distances of its parts. */
  lemma {:induction false} CostSumAppend(a: seq<Symptom>, b: seq<Symptom>, crash: CrashInfo, ops: SymptomOps)
    ensures CostSum(a + b, crash, ops) == CostSum(a, crash, ops) + CostSum(b, crash, ops)
    decreases |b|
  {
    if |b| == 0 {
      assert a + b == a;
    } else {
      var b' := b[..|b| - 1];
      assert (a + b)[..|a + b| - 1] == a + b';
      assert (a + b)[|a + b| - 1] == b[|b| - 1];
      CostSumAppend(a, b', crash, ops);
    }
  }

  /** The distance is zero exactly when no symptom contributes anything: every
      non-stack symptom matches, and every stack-frame symptom either has diff
      distance zero or has no frames and no diff distance. */
  lemma {:induction false} DistanceZeroIff(symptoms: seq<Symptom>, crash: CrashInfo, ops: SymptomOps)
    ensures CostSum(symptoms, crash, ops) == 0 <==>
      forall i | 0 <= i < |symptoms| ::
        if symptoms[i].StackFrames? then
          || ops.diff(symptoms[i], crash).distance == Some(0)
          || (ops.diff(symptoms[i], crash).distance.None? && |symptoms[i].functionNames| == 0)
        else ops.matches(symptoms[i], crash)
    decreases |symptoms|
  {
    if |symptoms| > 0 {
      var front := symptoms[..|symptoms| - 1];
      assert forall i | 0 <= i < |front| :: front[i] == symptoms[i];
      DistanceZeroIff(front, crash, ops);
    }
  }

  /** A crash the signature matches scores distance zero, provided the stack diffs of
      its stack-frame symptoms report distance zero for that crash. */
  lemma MatchingCrashScoresZero(sig: Signature, crash: CrashInfo, ops: SymptomOps)
    requires Matches(sig, crash, ops)
    requires forall i | 0 <= i < |sig.symptoms| ::
      sig.symptoms[i].StackFrames? ==> ops.diff(sig.symptoms[i], crash).distance == Some(0)
    ensures CostSum(sig.symptoms, crash, ops) == 0
  {
    DistanceZeroIff(sig.symptoms, crash, ops);
  }

  /** When every stack diff distance stays within the frame count, the distance never
      exceeds the total, and it equals the total exactly when every symptom contributes
      its full weight. */
  lemma {:induction false} DistanceAtMostTotal(symptoms: seq<Symptom>, crash: CrashInfo, ops: SymptomOps)
    requires forall i | 0 <= i < |symptoms| ::
      symptoms[i].StackFrames? ==> ops.diff(symptoms[i], crash).distance.GetOr(0) <= |symptoms[i].functionNames|
    ensures CostSum(symptoms, crash, ops) <= |symptoms| + StackSurplus(symptoms)
    ensures CostSum(symptoms, crash, ops) == |symptoms| + StackSurplus(symptoms) <==>
      forall i | 0 <= i < |symptoms| :: SymptomCost(symptoms[i], crash, ops) == SymptomWeight(symptoms[i])
    decreases |symptoms|
  {
    if |symptoms| > 0 {
      var front := symptoms[..|symptoms| - 1];
      assert forall i | 0 <= i < |front| :: front[i] == symptoms[i];
      DistanceAtMostTotal(front, crash, ops);
    }
  }

  /** The worst-case fallback: when no stack diff yields a distance and no other
      symptom matches, the distance equals the total. */
  lemma {:induction false} NoDiffIsWorstCase(symptoms: seq<Symptom>, crash: CrashInfo, ops: SymptomOps)
    requires forall i | 0 <= i < |symptoms| ::
      if symptoms[i].StackFrames? then ops.diff(symptoms[i], crash).distance.None?
      else !ops.matches(symptoms[i], crash)
    ensures CostSum(symptoms, crash, ops) == |symptoms| + StackSurplus(symptoms)
  {
    DistanceAtMostTotal(symptoms, crash, ops);
  }
}
